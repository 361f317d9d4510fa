# Verified model of the Trinity-AE passes

Trinity-AE lowers tensor programs to a small tile IR (stores, loads, loops, sequences), rewrites it in a
Python front end and in a Rust equality-saturation optimizer, and picks candidates to benchmark. This
project models those passes in Dafny and proves that they keep the meaning of programs, that the
dependence checks justify the reorderings, and that the enumerators, selectors, printers and parsers do
what they are for.

Layout:

- `ast.dfy`, `machine.dfy`, `element.dfy`: the IR, its interpreter over an arbitrary machine (contents,
  tiles and arithmetic are parameters), the straight-line form of an execution, frame lemmas, and the
  concrete machine whose tensors are grids of cells.
- `reordering.dfy`: when stores, statements and calls commute; any reordering whose inverted pairs commute
  keeps the result.
- `text.dfy`, `sexp.dfy`, `format.dfy`, `irtext.dfy`, `irmeaning.dfy`: numerals, joined names, S-expressions, the
  pretty-printer, the IR printer, the IR parser, and what the nodes it reads mean.
- `signature.dfy`, `fusion.dfy`, `seqrules.dfy`: call signatures, fusion groups, emission of fused nodes,
  sequencing, and the exchange rules of the optimizer on the emitted program; `sigexact.dfy` and `fusionexact.dfy`:
  which calls have one signature, and that the plan leaves out nothing and the validator nothing more.
- `inline.dfy`, `inlineexact.dfy`, `inlinescope.dfy`, `deadcode.dfy`, `innerloops.dfy`, `innermeaning.dfy`,
  `reshape.dfy`: front-end passes.
- `decompose.dfy`, `decompexact.dfy`: splitting expressions into temporaries, what it keeps, and which temporaries
  it makes.
- `axes.dfy`, `axesexact.dfy`: renaming loop variables across calls, what it keeps, and which axes share a name.
- `loops.dfy`, `logmachine.dfy`, `loopexact.dfy`, `loopinputs.dfy`: splitting and fusing loops, when it is
  right on every machine that keeps regions apart, and inputs the source accepts on which it is wrong.
- `loopchecks.dfy`, `ruleplaces.dfy`: when the dependence checks pass, and where the rules apply.
- `treerules.dfy`, `treeinputs.dfy`: the optimizer's rules on whole programs with joined names, in any chain, and
  inputs on which fusing nodes is wrong.
- `traceexact.dfy`: when two statements or two programs of nodes have the same effect, exactly.
- `matrix.dfy`, `matrixrules.dfy`: the algebraic rules of the optimizer, and that they are its patterns.
- `egraph.dfy`, `countexact.dfy`: extraction: what is listed, how much, and what is counted.
- `select.dfy`, `canon.dfy`, `candheads.dfy`: benchmark selection, candidate signatures, and the operators they keep.

Where the source walks a tree by recursion the model is a function; where it runs a loop, a worklist, a
position or a mutable set, the model is a method (or a class) proved equal to a specification function, and
the theorems are about that function.

Findings of the proofs, each backed by a lemma with a concrete input:

- The check before loop fission and fusion looks at read-after-write alone and takes indices of different
  kinds as equal. Inputs with each of the three hazards pass it and change their result
  (`LoopInputs.ReadAfterWriteInput`, `WriteAfterReadInput`, `WriteAfterWriteInput`). For bodies of single
  stores the exact condition is `LoopExact.NoHazard` (`FissionExact`, `NoHazardSplits`); for all bodies,
  hazards carried by the loop variable are enough (`LoopRules.FissionPreserves`), and at any fixed bounds the
  exact condition is that stores which do not commute keep their order (`TraceExact.OneEndIff`).
- Fusion does not compare two numeric tiles and keeps the first (`LoopInputs.TileInput`). It is right for all
  bodies exactly when the tiles have one size or the loops do not run (`LoopExact.FusionTilesExact`).
- Loops that are nodes with joined names are fused whatever their numbers of members, and when members depend on
  each other crosswise; both change what the program computes (`TreeInputs.UnevenInput`, `CrosswiseInput`). One
  program of nodes may stand for another exactly when stores that do not commute keep their order in the members
  they run (`TraceExact.SameProgramIff`).
- Inlining takes producers of constants alone. The sum of a tensor of ones then becomes the sum of one number
  (`InlineExact.ConstantOperandInput`). It is right for all operators and memories exactly when the tensor covers
  the cells the other operands leave and no operand of a non-elementwise operator loses its cells
  (`InlineExact.ConstantExact`); producers that load something need no such condition
  (`Inlining.LoadingNestsAllowed`).
- Removing an inner loop does not check that the loop covers the dimension (`InnerMeaning.UncoveredInput`). It is
  right exactly when the cells the loop does not reach hold already what is written there
  (`InnerMeaning.RemovalIff`).
- Axes addressed by elements alone have no access, so two loops of one nest can get one name, and the stores come in
  another order (`Axes.ElementsShareInput`, `TwoAxesShareNameIff`). Axes that clash pairwise are kept apart
  (`Axes.ClashKeepsApart`).
- A path that picks a sequence which the commutativity filter skips lists no program
  (`Extraction.SkippedPathInput`, `ListingEmptyIff`).
- Splitting expressions into temporaries stores every temporary at the index of the enclosing store. Below a
  matrix product that index is too small for the operand, and the product changes
  (`Decomposition.MatmulOperandIsCut`). Below any operator a candidate may be taken out, whatever the operator
  means, exactly when its cells are those of the region in the temporary (`Decomposition.NestedCandidateIff`),
  which can be checked from the shapes (`Decomposition.CheckDecides`); directly at the store less is enough
  (`Decomposition.ServesIff`);
  elementwise programs always meet this (`Decomposition.ElementwiseDecompositionPreserves`).
- The rule that moves a division through a matrix product is right for every reciprocal and all values exactly
  when the division is not along axis 0, the columns (`MatrixRules.DivRuleSoundIff`).
- The loop-variable renaming does not go into `Max` and `Min` (`Axes.RenamingMissesMax`); it renames
  everything exactly when no variable it changes occurs there (`Axes.RenamesAllIff`). Only a tree built by hand
  reaches this: the lowering makes a generic call of `tir.Max` (frontend/core/from_tir.py:1964-1967).
- The signatures of candidates rename the operators `erf`, `abs` and `<=`, which are no keywords there, so two
  candidates that differ in one of them alone share a signature (`CandidateHeads.RenamedOperatorInput`). All
  operators of a printed candidate are kept exactly when it has none of the three (`CandidateHeads.HeadsKeptIff`).
- The parser has no entry for loops, ranges and shifted tiles, so it reads a printed statement exactly when it
  has none of them (`IrText.OwnParserReadsIff`).

## Model

| member | source | states |
|---|---|---|
| Machines.ExecIsRun | frontend/ir/AST.py:107-140 | the interpreter of stores, loops, sequences and blocks equals running the flat list of executed stores |
| Machines.ExecFrame | frontend/utils/ir_utils.py:2084-2110 | a statement changes only tensors in its collected store names |
| Machines.ExecAgree | frontend/utils/ir_utils.py:1956-2013 | what a statement leaves depends only on its collected load names (and what was there) |
| Reordering.SwapStatements | frontend/utils/ir_utils.py:2267-2273 | two roots that do not conflict by name commute, whatever their loops, on every machine |
| Reordering.ReorderPreserves | frontend/core/to_ir.py:722-742 | any rearrangement of a list of steps whose inverted pairs all commute gives the same final state |
| Signatures.SignatureLossless | frontend/utils/ir_utils.py:2150-2263 | equal signatures mean equal skeletons and slot counts, and renaming one root's slots to joined names gives the other root back in its lane |
| Signatures.OpInjective | frontend/utils/ir_utils.py:2171-2253 | the signature text of an operator determines the operator and its operands |
| SignatureExact.SameSignatureIff | frontend/utils/ir_utils.py:2150-2263 | two roots have one signature exactly when one is the other with its loaded and its stored tensors renamed, each injectively |
| Fusion.PlanFusionGroups | frontend/utils/ir_utils.py:2298-2379 | the greedy scan with its covered set computes the specified plan, of which `FusionExact.PlanIsComplete` says that nothing is left out |
| Fusion.PlanIsPlanned | frontend/utils/ir_utils.py:2298-2379 | every planned group is a run of calls with one signature, pairwise without conflict or intervening dependency, no write slot shared, and groups are disjoint and in order |
| Fusion.ValidateFusionGroups | frontend/utils/ir_utils.py:2382-2431 | the validator reports no error exactly when all groups satisfy the stated conditions |
| FusionExact.PlanIsComplete | frontend/utils/ir_utils.py:2267-2379 | a call that comes up and is not in the run of an earlier one that comes up differs from it in signature, shares with a member of the run a tensor that one of them stores, or has a call between them that depends on it or that it depends on |
| FusionExact.PlanIsSound | frontend/utils/ir_utils.py:2298-2379 | planned groups have at least two calls, in order, of one signature, none of which stores what another loads or stores, with nothing between two of them that touches what the later one stores or stores what it touches |
| FusionExact.SharedSlotIff | frontend/utils/ir_utils.py:2354-2379 | a load slot keeps one name in the fused node exactly when all members load the same tensor there |
| FusionExact.Validate | frontend/utils/ir_utils.py:2382-2431 | no error is reported exactly when groups are disjoint and every group is of one signature, free in the same sense and right about its shared slots |
| Fusion.PlansValidate | frontend/utils/ir_utils.py:2354-2431 | every output of the planner passes the validator |
| Fusion.CallsToIrWithGroups | frontend/core/to_ir.py:722-742 | the emission loop prints each group at its first member and skips the others |
| Fusion.EmitOrderSorts | frontend/core/to_ir.py:722-742 | emission visits every call once, ordered by the place of its group |
| Fusion.InvertedPairIsIndependent | frontend/utils/ir_utils.py:2279-2295 | two calls whose order emission inverts have a member strictly between the other's group start and its place, hence do not conflict |
| Fusion.HoistingPreserves | frontend/core/to_ir.py:722-742 | running the calls in emission order gives the memory of the original order |
| Fusion.FusedNodeLossless | frontend/core/to_ir.py:748-825 | the k-th comma component of every name of a fused node gives exactly the k-th member's root |
| Fusion.FusedProgramPreserves | frontend/core/to_ir.py:722-825 | analysing, planning and emitting a program gives nodes that run to the same memory as the calls |
| SeqRules.BuildSeq | frontend/core/sequantialize.py:8-16 | the reversed loop builds the right-nested sequence |
| SeqRules.SequentializePreserves | frontend/core/sequantialize.py:19-32 | turning blocks into right-nested sequences keeps the meaning |
| SeqRules.SequentializeComplete | frontend/core/sequantialize.py:19-32 | in a program of nested blocks no block is left but empty ones, and sequences nest to the right |
| LoopChecks.ExchangeableIff | optimizer/src/dependency.rs:62-102 | the check passes exactly when there is no tensor, as a component of a joined name or alone, that one side stores and the other stores or loads |
| RulePlaces.ExchangesIff | optimizer/src/rules.rs:118-132 | an exchange is one trade of such neighbours, the last two or the first two of more, at one place of the tree |
| SeqRules.NodesCommute | optimizer/src/dependency.rs:62-102 | nodes with joined names that pass the dependence check commute as wholes, all members of one with all members of the other |
| SeqRules.ExchangePreserves | optimizer/src/rules.rs:118-132 | seq-comm and seq-comm-tail, at any subtree, keep what the program does |
| SeqRules.ExchangedProgramPreserves | optimizer/src/rules.rs:118-132 | from the calls through grouping, emission, sequencing and any chain of exchanges the memory is that of the original calls |
| Inlining.InlineElementwiseCalls | frontend/utils/ir_utils.py:1693-1762 | the worklist over the shrinking call list computes the specified result, or fails when a generic binary operator would have to be rebuilt, whose class takes another number of arguments |
| InlineScope.OfferedIff | frontend/utils/ir_utils.py:1510-1575 | a call offers a template exactly when it is loops around one store to its own output, which is no program output, of a value made of constants, loads at the store's index and the pointwise operators of the source other than the exponential |
| InlineScope.DroppedAreOffered | frontend/utils/ir_utils.py:1693-1762 | whatever the worklist drops was offered and is no output |
| InlineScope.NothingLeftToInline | frontend/utils/ir_utils.py:1693-1762 | when the worklist is done no call that offers a template is loaded by a later call |
| Inlining.EvalBuild | frontend/utils/ir_utils.py:1577-1606 | a template built at any index evaluates cell by cell to the template's value at the absolute coordinate |
| Inlining.ProducerOffers | frontend/utils/ir_utils.py:1510-1575 | a covering producer nest, of loads or of constants, leaves the template's value in every cell of its tensor |
| Inlining.InlineExec | frontend/utils/ir_utils.py:1608-1686 | replacing loads of such a tensor by the template at the load's own index keeps a statement's effect, for constants where its stores keep what they write |
| Inlining.ConstantStep | frontend/utils/ir_utils.py:1608-1686 | an executed store keeps its effect when loads of a tensor of constants become the constant, under a condition on shapes alone |
| Inlining.InliningPreserves | frontend/utils/ir_utils.py:1494-1762 | over the whole worklist every tensor keeps its contents except those of dropped producers, and no output is dropped, if the consumers of constants allow it |
| Inlining.LoadingNestsAllowed | frontend/utils/ir_utils.py:1693-1762 | they do, along the whole worklist, when every producer loads something of its shape |
| InlineExact.ConstantExact | frontend/utils/ir_utils.py:1544-1686 | putting a constant for the loads of a tensor is right for all meanings of the operators and all memories exactly under that condition |
| InlineExact.ConstantOperandInput | frontend/utils/ir_utils.py:1544-1686 | the sum of a tensor of two ones is 2 before the pass and 1 after it |
| DeadCode.EliminateDeadCalls | frontend/utils/ir_utils.py:1809-1855 | the backward scan with its live set keeps the specified calls |
| DeadCode.KeptIffNeeded | frontend/utils/ir_utils.py:1809-1855 | a call is kept exactly when it stores an input buffer, or its output is a program output that no later kept call produces, or a later kept call uses its output with no kept producer between |
| DeadCode.NeededMarking | frontend/utils/ir_utils.py:1809-1855 | there is one way to mark the calls so that the marked ones are exactly those needed by marked ones, and it marks the kept calls |
| DeadCode.KeptTwice | frontend/utils/ir_utils.py:1809-1855 | eliminating dead calls a second time changes nothing |
| DeadCode.DeadCallsPreserve | frontend/utils/ir_utils.py:1809-1855 | the kept calls leave all outputs and all input buffers as the whole program does |
| DeadCode.PruneFilters | frontend/utils/ir_utils.py:1879-1942 | pruning a statement removes exactly the executed stores to dead names, through sequences, blocks and loops |
| DeadCode.KeptLoadNoDead | frontend/utils/ir_utils.py:1879-1942 | no store that is kept loads a dropped temporary |
| DeadCode.DeadStoresPreserve | frontend/utils/ir_utils.py:1765-1942 | the pruned statement changes nothing but dropped temporaries, cascades included, and drops nothing preserved |
| DeadCode.SurvivorsAreNeeded | frontend/utils/ir_utils.py:1884-1891 | a store survives exactly when its tensor is preserved or live where it stands |
| DeadCode.SurvivorsExactly | frontend/utils/ir_utils.py:1872-1942 | the stores that survive are those that a marking of this kind, read over the stores of the statement, marks |
| DeadCode.EliminationIdempotent | frontend/utils/ir_utils.py:1872-1942 | eliminating dead stores a second time changes nothing |
| Decomposition.SelectPlaces | frontend/utils/ir_utils.py:2764-2779 | the selection loop picks exactly the target number of distinct indices below the total |
| Decomposition.PlacesIncrease | frontend/utils/ir_utils.py:2772-2779 | the evenly spread indices are strictly increasing, non-negative and below the total |
| Decomposition.Decomposer.FreshTemp | frontend/utils/ir_utils.py:2568-2577 | the counter stops at the first number whose name is free, and the name is recorded |
| Decomposition.Decomposer.Expression | frontend/utils/ir_utils.py:2790-2917 | the stateful rewriting computes the specified expression, prelude and state |
| Decomposition.Decomposer.Statement | frontend/utils/ir_utils.py:2919-2946 | the stateful rewriting of statements computes the specified statement and state |
| Decomposition.DecomposeOperations | frontend/utils/ir_utils.py:2543-2946 | the pass counts, selects and rewrites as specified, with the ratio clamped to 0..1 |
| Decomposition.MakesTarget | frontend/utils/ir_utils.py:2649-2695 | exactly the target number of temporaries is made, fresh and pairwise different: counting and rewriting meet the same candidates |
| DecompositionExact.CandidatesIff | frontend/utils/ir_utils.py:2556-2677 | the candidates are the places that hold an addition, subtraction, product, quotient, exponential, square, square root, sigmoid or matrix product, are not under a reduction, maximum or minimum, and under a transpose only in its first operand |
| DecompositionExact.CandidatesInOrder | frontend/utils/ir_utils.py:2649-2695 | the pass counts each of them once, an operator before its operands and those from left to right |
| DecompositionExact.ExpressionCut | frontend/utils/ir_utils.py:2781-2917 | the candidate with number k in that order becomes a temporary exactly when k is chosen, stored and loaded at the index of its place |
| DecompositionExact.ExpressionRestored | frontend/utils/ir_utils.py:2790-2917 | putting back what the temporaries hold gives the expression as it was, whatever was chosen |
| DecompositionExact.DecomposedIff | frontend/utils/ir_utils.py:2543-2946 | so for the whole pass at every ratio, store by store, the temporaries being new and different |
| DecompositionExact.ChosenIff | frontend/utils/ir_utils.py:2764-2788 | candidate i is chosen exactly when the ratio is at least 1 or i lies in the middle of one of as many equal parts as the ratio of the total, rounded half to even, says |
| DecompositionExact.PermutedIndex | frontend/utils/ir_utils.py:2612-2642 | below a permutation the coordinate k stands in dimension d_k |
| DecompositionExact.UnsqueezedIff | frontend/utils/ir_utils.py:2589-2597 | below an unsqueeze the coordinate of the new axis is gone and the others stay in order, as the extents do |
| DecompositionExact.SqueezedIff | frontend/utils/ir_utils.py:2599-2610 | below a squeeze the dropped axis is taken whole and the others stay in order |
| Decomposition.StmtPreserves | frontend/utils/ir_utils.py:2790-2946 | on tensors of cells, a decomposed statement does to every known tensor what the original does, in any loop environment, if every candidate it takes out fits its temporary |
| Decomposition.DecompositionPreserves | frontend/utils/ir_utils.py:2543-2946 | for any ratio the whole pass preserves all original tensors, with temporaries allocated in the shapes the pass infers and candidates that fit them, or at the store serve it |
| Decomposition.ServesIff | frontend/utils/ir_utils.py:2919-2946 | directly at the store, going through the temporary writes the same, whatever was there before, exactly when on the region it has the cells the value gives |
| Decomposition.CheckDecides | frontend/utils/ir_utils.py:2697-2946 | where arithmetic determines the cells of a result from those of its operands, whether all candidates fit follows from shapes, tile sizes and loop bounds, and can be checked before the program runs |
| Decomposition.ElementwiseDecompositionPreserves | frontend/utils/ir_utils.py:2543-2946 | elementwise programs over tensors of their destination's shape fit, so the pass preserves them at every ratio |
| Decomposition.NestedCandidateIff | frontend/utils/ir_utils.py:2796-2808 | below another operator, taking a candidate out is right for every meaning of that operator exactly when its value fits the temporary or the store changes no cell |
| Decomposition.MatmulOperandIsCut | frontend/utils/ir_utils.py:2796-2822 | a row times a column, with exp on the row: 2 before the pass and 1 after it, because the row's temporary is stored at the product's index |
| Elements.ReadBackIff | frontend/utils/ir_utils.py:2806-2808 | a tile stored to a region is read back whole exactly when its cells are the region's cells in the tensor |
| Axes.PickHighest | frontend/utils/ir_utils.py:529-556 | the scan over groups finds the first with the highest (shared tensors, outermost count) |
| Axes.HighestIsHighest | frontend/utils/ir_utils.py:529-556 | that group is compatible, none is rated higher, and every earlier one is rated lower; none is found only if none is compatible |
| AxesExact.AccessIff | frontend/utils/ir_utils.py:68-252 | what is known of an axis are exactly the tensor dimensions where a tile of it, shifted or not, stands in a store or in a load that is not under a maximum, minimum or permutation |
| AxesExact.RangeIff | frontend/utils/ir_utils.py:315-394 | its range and tile are those of the last loop over it, inside before outside and right before left |
| AxesExact.OutermostIff | frontend/utils/ir_utils.py:285-299 | the outermost axis is that of the first statement, where this is a loop |
| AxesExact.PlacedIff | frontend/utils/ir_utils.py:524-587 | among all axes that came up before, an axis joins a group exactly when one of the group has its range, their tiles allow it, and it addresses every tensor it shares with any of them in the same dimensions; of these groups it joins the one that shares most tensors, was outermost most often, and is oldest |
| AxesExact.NamesArePlaces | frontend/utils/ir_utils.py:466-613 | in every call exactly the spellings of its axes are renamed, each to the name of the group its axis got in the whole program |
| AxesExact.OneNameIffOnePlace | frontend/utils/ir_utils.py:466-613 | two spellings anywhere in a program get one name exactly when their axes got one group |
| AxesExact.PlaceNames | frontend/utils/ir_utils.py:282-283 | the groups are named i to z and then a18, a19 and so on |
| AxesExact.RenamedLoops | frontend/utils/ir_utils.py:723-848 | the loops of a renamed statement are the old ones in order, with variables, bounds and tiles that are named after their variable renamed |
| Axes.AssignSettles | frontend/utils/ir_utils.py:524-587 | an axis that joined or founded a group agrees with it and would choose it again |
| Axes.AssignKeeps | frontend/utils/ir_utils.py:417-425 | an axis that addresses a shared tensor in other dimensions leaves a settled axis in its group and joins another |
| Axes.GroupsNeverForget | frontend/utils/ir_utils.py:582-587 | a group's access map agrees with every axis that ever joined it |
| Axes.SameNameIffSameAxis | frontend/utils/ir_utils.py:466-587 | in a call whose axes clash pairwise the naming of the call gives two spellings one name exactly when they are spellings of one axis |
| Axes.NormalizeAxes | frontend/utils/ir_utils.py:252-613 | the loops over calls and axes compute the specified program |
| Axes.RenamesAllIff | frontend/utils/ir_utils.py:723-848 | the renaming reaches every occurrence exactly when none it must change is under Max or Min |
| Axes.RenamedSame | frontend/utils/ir_utils.py:723-848 | a full renaming that keeps axes apart, with matching tile sizes, is invisible; spellings of one axis may get one name |
| Axes.NormalizationPreserves | frontend/utils/ir_utils.py:252-613 | normalising all calls of a program, with `v_x` and `x` mixed as lowering mixes them, keeps what it computes if the names keep the axes apart |
| Axes.NormalizeAxesPreserves | frontend/utils/ir_utils.py:252-613 | so it is from the empty table and the name pool the pass starts with |
| Axes.ClashKeepsApart | frontend/utils/ir_utils.py:466-587 | they do in a call that mentions only its axes, if the axes clash pairwise |
| Axes.TwoAxesShareNameIff | frontend/utils/ir_utils.py:417-587 | two axes named first get one name exactly when ranges are equal, tiles compatible and no shared tensor tells them apart |
| Axes.ElementsShareInput | frontend/utils/ir_utils.py:252-613 | two nested loops over elements get one variable, and the stores come in another order |
| Axes.RenamingMissesMax | frontend/utils/ir_utils.py:723-848 | a loop whose result changes because a Max of two operands keeps the old loop variable |
| InnerLoops.RemoveSmallestInnerLoops | frontend/utils/ir_utils.py:3560-3624 | the elimination loop terminates (loop count, then tree size) and computes the specified tree |
| InnerLoops.RemovedIsOnePass | frontend/utils/ir_utils.py:3409-3624 | eliminating the smallest loop again and again equals removing all eligible inner loops at once |
| InnerLoops.RemovalIsComplete | frontend/utils/ir_utils.py:3560-3624 | no loop that the test lets go is left directly inside a loop, and running the pass again changes nothing; the test itself is `InnerLoops.EligibleIff` |
| InnerLoops.ChainOfResult | frontend/utils/ir_utils.py:3560-3624 | in the result no loop directly inside a loop has numeric bounds, an extent of at most the limit, and no coordinate that is an element or a shifted tile of its variable |
| InnerLoops.RemovedIff | frontend/utils/ir_utils.py:3366-3624 | down a chain of loops, an inner loop is removed exactly when its bounds are numeric, its extent is at most the limit, and no coordinate of a store index, or of a load in a store value outside sequences and permutations, is an element or a shifted tile of its variable |
| InnerLoops.EligibleIff | frontend/utils/ir_utils.py:3366-3409 | the deciding test is this condition |
| InnerMeaning.RemovalIff | frontend/utils/ir_utils.py:3409-3557 | on tensors of cells, removing a loop that walks over one dimension of an elementwise nest changes nothing exactly when the cells its rounds do not reach hold what the nest without it writes |
| InnerMeaning.RemovalKeepsMeaning | frontend/utils/ir_utils.py:3409-3557 | so it changes nothing if the loop covers its dimension |
| InnerMeaning.RemovedKeepsMeaning | frontend/utils/ir_utils.py:3560-3624 | the whole pass keeps what a program does if every loop it removes does so |
| InnerMeaning.UncoveredInput | frontend/utils/ir_utils.py:3560-3624 | a loop of one round over one of two cells is removed, and the other cell is then written |
| Reshapes.InferSingleSplit | frontend/core/from_tir.py:1580-1609 | finds the split exactly when there is one, with its position and extents |
| Reshapes.InferSingleMerge | frontend/core/from_tir.py:1611-1640 | finds the merge exactly when there is one |
| Reshapes.SplitMergeDual | frontend/core/from_tir.py:1580-1640 | splitting one way and merging the other way succeed together at the same place, since the place is unique |
| Reshapes.OnlyTrailingUnitIsMissed | frontend/core/from_tir.py:1580-1609 | of the shapes that refine one axis, the inference misses only the one that appends a unit axis |
| Reshapes.JoinedKeepsLinear | frontend/core/from_tir.py:1580-1640 | a split or merge keeps the row-major index of every element, at any rank |
| Reshapes.LinearInjective | frontend/core/from_tir.py:1580-1640 | the row-major index determines the element |
| Reshapes.ReshapeToLoop | frontend/core/from_tir.py:1642-1761 | the loop emitted for a split or a merge, and nothing in the modelled part for other shapes |
| Reshapes.RoundOfElement | frontend/core/from_tir.py:1642-1761 | every output element is written in exactly one iteration |
| Reshapes.ReshapeIsRowMajor | frontend/core/from_tir.py:1642-1761 | running the emitted loop leaves the output with the input's elements in row-major order, and no other tensor changes |
| LoopRules.LoopOverSeq | optimizer/src/rules.rs:152-161 | a loop over two bodies equals the two loops in order, for every trip count, when all hazards between the bodies, by the components of joined names, are carried by the loop variable |
| LoopRules.FissionPreserves | optimizer/src/rules.rs:152-161 | loop-fission and loop-fission-tail preserve memory |
| LoopRules.FusionPreserves | optimizer/src/applier.rs:165-187 | the same-variable, same-range branches of LoopFusion and LoopFusionTail preserve memory when each body runs the same stores with the fused loop's tile |
| LoopChecks.AccessesAre | optimizer/src/utils.rs:10-124 | the access sets hold exactly the stores of a body and the loads in their values, with their indices |
| LoopChecks.NoRawIff | optimizer/src/dependency.rs:11-59 | the check passes exactly when the second body loads nothing that the first stores at another index, or at one that does not name the loop variable while some load of the first does |
| LoopChecks.FissionIff | optimizer/src/rules.rs:152-161 | fission applies exactly to a loop from 0 over two bodies that pass this check, and gives the two loops |
| LoopChecks.FuseLoopsIff | optimizer/src/applier.rs:165-187 | fusion applies exactly to two loops of one variable and range that pass it, and gives the loop over both with the second tile where only that is a number |
| RulePlaces.ChangesIff | optimizer/src/rules.rs:118-161 | a step inside a node is one rule at one place |
| RulePlaces.TreeChangesIff | optimizer/src/rules.rs:118-161 | a step of the rewriting on a program is one rule on nodes between them, or one rule at a place inside a node |
| LogMachines.LogMachineKeepsRegionsApart | optimizer/src/utils.rs:651-690 | the machines that log what is stored to regions that meet keep apart the regions that differ in a coordinate |
| LogMachines.OrderShows | optimizer/src/dependency.rs:11-59 | two executed stores that are neither independent nor the same run in an order that one of these machines shows, whatever runs between and after them |
| LoopExact.NoHazardSplits | optimizer/src/rules.rs:152-161 | for single stores, splitting is right on every machine that keeps regions apart if every round of the second is independent of, or the same store as, every later round of the first |
| LoopExact.FissionExact | optimizer/src/rules.rs:152-161 | nothing less will do: splitting is right on all machines of logs, for every end up to a bound, exactly under that condition |
| LoopExact.FusionTilesExact | optimizer/src/applier.rs:165-187 | two loops are fused rightly for all bodies with carried hazards exactly when their tiles have one size or they do not run |
| TraceExact.RunsExact | optimizer/src/dependency.rs:11-102 | two runs of stores are the same on all machines of logs exactly when any two stores that do not commute take the same turns in both |
| TraceExact.OrdersRun | optimizer/src/dependency.rs:11-102 | they are then the same on every machine that keeps regions apart |
| TraceExact.SameEffectIff | optimizer/src/rules.rs:118-161 | so two statements, such as both sides of a rule, have the same effect on all machines of logs exactly when their runs agree on the order of what does not commute |
| TraceExact.SameProgramIff | optimizer/src/rules.rs:118-161 | and so do two programs of nodes with joined names, whatever their numbers of members |
| TraceExact.OneEndIff | optimizer/src/rules.rs:152-161 | at one end of the loop, splitting is right for bodies of any form exactly when the orders agree |
| TraceExact.AllEndsIff | optimizer/src/rules.rs:152-161 | for single stores the orders agree at every end up to a bound exactly without a hazard between rounds |
| LoopInputs.ReadAfterWriteInput | optimizer/src/dependency.rs:11-59 | a fill and a scan of the whole tensor pass the check and give another result in one loop than in two |
| LoopInputs.WriteAfterReadInput | optimizer/src/dependency.rs:11-59 | a scan and a fill of what later rounds scan do so too |
| LoopInputs.WriteAfterWriteInput | optimizer/src/dependency.rs:11-59 | and so do two bodies that write one tensor |
| LoopInputs.TileInput | optimizer/src/applier.rs:165-187 | loops with the numeric tiles 2 and 1 over bodies that share nothing are fused with tile 2, and a cell is no longer written |
| TreeInputs.CrosswiseInput | optimizer/src/applier.rs:165-187 | two loops of pairs are fused, the second reading what the other member of the first writes, and it reads too early |
| TreeInputs.UnevenInput | optimizer/src/applier.rs:165-187 | a loop of pairs and a loop of one member are fused, and the latter runs for the second member too |
| TreeRules.MembersCarry | optimizer/src/utils.rs:629-690 | hazards carried in a node with joined names are carried in every member it runs |
| TreeRules.ChangesAt | optimizer/src/rules.rs:118-161 | exchanges, splits and fusions anywhere inside a node, also under its loops, leave what each member does and names |
| TreeRules.TreeChangePreserves | optimizer/src/rules.rs:118-161 | one of these rules at any place of the tree of nodes keeps what the program does and what the rules need |
| TreeRules.OptimizedProgramPreserves | optimizer/src/rules.rs:118-161 | from the calls through grouping, emission, sequencing and any chain of exchanges, splits and fusions the memory is that of the original calls |
| Elements.ElementMachineKeepsRegionsApart | optimizer/src/utils.rs:651-690 | on grids of cells, accesses whose regions differ in a coordinate do not interfere |
| MatrixRules.MatMulAssoc | optimizer/src/rules.rs:369-370 | matrix multiplication is associative at all dimensions |
| MatrixRules.BlockProduct | optimizer/src/rules.rs:392-393 | a sum of two products is the product of the concatenations |
| MatrixRules.RuleSound | optimizer/src/rules.rs:363-393 | every algebraic rule keeps the value whenever both sides are well shaped (the division rule: along rows) |
| MatrixRules.ChainSound | optimizer/src/rules.rs:363-393 | any finite chain of rewrites at any subterms between well-shaped terms keeps the value |
| RulePatterns.AppliesIff | optimizer/src/rules.rs:362-396 | a rule takes one term to another exactly when its two patterns stand for them under one assignment of its variables |
| RulePatterns.RewritesIff | optimizer/src/rules.rs:362-396 | a step of the rewriting is one rule at one place of the term |
| MatrixRules.DivRuleSoundIff | optimizer/src/rules.rs:371 | the rule that moves a division through a product is right for every reciprocal and all matrices exactly when the axis is not 0 |
| Extraction.CartesianProduct | optimizer/src/extract.rs:832-854 | the nested loops compute the product in order |
| Extraction.CartesianLength | optimizer/src/extract.rs:832-854 | the product has exactly the product of the lengths |
| Extraction.CartesianMembers | optimizer/src/extract.rs:832-854 | the product holds exactly the ways of picking one item per list |
| Extraction.ShouldSkip | optimizer/src/extract.rs:857-907 | the nested scans decide exactly whether another Seq of the class witnesses the skip |
| Extraction.EverySkippedReachesKept | optimizer/src/extract.rs:857-907 | every Seq of a class reaches a kept one by a finite chain of swaps with strictly smaller heads, so no class loses all its Seqs |
| Extraction.WitnessedIff | optimizer/src/extract.rs:857-907 | a sequence is skipped exactly when its class has the same two steps in the other order with a smaller head |
| Extraction.ListedIff | optimizer/src/extract.rs:314-394 | a text is listed exactly when it is that of a tree of nodes in their classes, on the path where it picks, cut at repeated classes and below depth 100, with no sequence as first child of a sequence, no tiled loop and no skipped sequence |
| Extraction.ChainListed | optimizer/src/extract.rs:314-394 | a right-nested chain of steps of any length that picks in its classes and has no skipped sequence is listed |
| CountExact.ListingIsNumberOfTrees | optimizer/src/extract.rs:314-394 | the listing has as many entries as there are such trees |
| CountExact.CountIsNumberOfTrees | optimizer/src/extract.rs:534-620 | the count is the number of such trees without deleted nodes |
| Extraction.ListingEmptyIff | optimizer/src/extract.rs:314-394 | a class lists nothing exactly when every node the path leaves to it is filtered out or has a child that lists nothing; what is filtered is told by `Extraction.ListedIff` |
| Extraction.SkippedPathInput | optimizer/src/extract.rs:314-394 | a path that picks the skipped one of two orders lists nothing, though the class has a program |
| Extraction.Enumerator.EnumerateFull | optimizer/src/extract.rs:314-394 | the listing is as specified and the visited set is restored |
| Extraction.Enumerator.CountFull | optimizer/src/extract.rs:534-620 | the count is as specified and the visited set is restored |
| Extraction.CountIsListingLength | optimizer/src/extract.rs:534-620 | with no deleted node the count is the length of the listing, for every e-graph, path, visited set and depth |
| Extraction.ListingIsExact | optimizer/src/extract.rs:314-394 | for every e-graph, path, visited set and depth the listing holds exactly the texts of the derivable programs, a branch being cut below depth 100; the same by the trees alone is `Extraction.ListedIff` |
| Extraction.CountAtMost | optimizer/src/extract.rs:534-620 | the count is never more than the length of the listing |
| Extraction.CountIsExact | optimizer/src/extract.rs:534-620 | they are equal exactly when no derivable program picks a node marked as deleted |
| Selection.PickDiverseSeeds | backend/profile/benchmark.py:281-305 | seeds are distinct: the first candidate, the first of greatest norm, then always the farthest |
| Selection.SelectOptimized | backend/profile/benchmark.py:327-355 | all candidates if they fit, else exactly max_benchmarks distinct ones in farthest-first order |
| Selection.SelectionCovers | backend/profile/benchmark.py:281-355 | every candidate is within twice the radius that max_benchmarks - 1 balls need (max_benchmarks balls if the farthest rule chose all but the first), in any metric |
| Canonical.CanonicalizeTokens | backend/profile/benchmark.py:206-219 | the loop with its alias table computes the canonical tokens |
| Canonical.CanonicalIffRenamed | backend/profile/benchmark.py:206-219 | two token lists have one canonical form exactly when an injective renaming of free tokens maps one to the other |
| Canonical.CanonIdempotent | backend/profile/benchmark.py:206-219 | canonicalising twice changes nothing |
| Canonical.SameSignatureIffRenamed | backend/profile/benchmark.py:196-219 | two candidate texts get one signature exactly when they agree up to names |
| Canonical.CanonicalizeIr | backend/profile/benchmark.py:47-53 | a candidate text gets the canonical text over the IR's own keywords |
| Canonical.CandidateSignatures | backend/profile/benchmark.py:196-219 | with those keywords two candidates share a signature exactly when they agree up to names, and signatures are stable |
| CandidateHeads.HeadsKeptIff | backend/profile/benchmark.py:47-53 | every operator of a printed statement is kept in its signature exactly when it has no erf, abs or <= |
| CandidateHeads.RenamedOperatorInput | backend/profile/benchmark.py:196-219 | a candidate with erf and one with abs in its place share a signature |
| Canonical.UniqueMembers | backend/profile/benchmark.py:447-451 | the first member of each signature group, in order of appearance |
| Canonical.RepresentativesSuffice | backend/profile/benchmark.py:447-451 | the representatives differ pairwise up to names and every candidate is one of them up to names |
| Formatter.FormatRoundTrip | backend/format.py:5-116 | re-reading the formatter's output gives the tree back at any indentation |
| Formatter.FormatIdempotent | backend/format.py:5-116 | formatting is idempotent |
| Sexps.StringifyInjective | backend/format.py:40-44 | two trees with the same one-line text are equal |
| Formatter.TokenList.ParseNext | backend/format.py:16-33 | the parser popping from its token list reads exactly one expression or reports the error |
| IrText.StmtSays | frontend/core/to_ir.py:8-172 | the printed text of a statement has the tokens of its tree at any level, inline or indented |
| IrText.IRParser.ParseExpression | backend/codegen/IrParser.py:27-48 | the parser with its position reads one expression or reports the error |
| IrText.IRParser.ParseNames | backend/codegen/IrParser.py:62-87 | comma-separated names become variables, a single name is parsed again as an expression |
| IrText.ParseIr | backend/codegen/IrParser.py:21-25 | the parser over its own operator table |
| IrText.PrintedStatementParses | backend/codegen/IrParser.py:13-144 | parsing a printed statement gives the node of its tree at any level, and fails exactly when the tree has an operator the parser does not know |
| IrText.PrintedExpressionParses | backend/codegen/IrParser.py:13-144 | the same for expressions |
| IrText.OwnParserReadsIff | backend/codegen/IrParser.py:99-144 | with its own table the parser reads a printed statement exactly when it has no loop, no range, no shifted tile and only operators of the table |
| IrMeaning.PrintedStatementMeans | backend/codegen/IrParser.py:13-144 | parsing the printed text of a readable statement gives a node that, with additions adding, subtractions subtracting and every other kind doing what it says, runs to what the statement does |
| IrMeaning.PrintedExpressionMeans | backend/codegen/IrParser.py:13-144 | and of a readable expression one that has its value |
| IrMeaning.GoodIsReadable | backend/codegen/IrParser.py:99-144 | what it says is readable to the parser |
| IrText.NodeDeterminesTree | backend/codegen/IrParser.py:13-144 | under any table that tells the operators apart, the node that was read determines the printed tree, so tile names up to cleaning |
| IrText.OwnNodeDeterminesTree | backend/codegen/IrParser.py:13-144 | with the parser's own table it does so for every tree without `permute3` and `permute4` |
| IrText.TensorText | frontend/core/to_ir.py:76-82 | a tensor is printed under its role with its name unchanged, joined or not |
| Text.SplitJoin | frontend/core/to_ir.py:748-825 | splitting a joined name at commas gives its components |

## Left out

- GPU kernels, Triton generation, TVM calls, benchmarking, plots, model definitions, workspace plumbing, file
  input and output, debug printing: not modelled.
- `If`, `Let`, `Take`, and loads inside indices or loop bounds: not in the modelled IR.
- Operators are identified with their spelling: a generic call or binary operator is one whose name no other
  constructor prints. Tensor names have no comma before joining, and a call stores something.
- Floating-point rounding: arithmetic is a parameter or over the reals; feature vectors are seen through an
  arbitrary metric and norm, without NaN. The even spacing in decomposition is computed exactly.
- `cast` of machine integers and integer widths: the source works on unbounded Python integers and on sizes
  that stay small.
- Machines.ExecIsRun: unbound loop variables stand for index 0 and a tile name has one size per program.
- Inlining.InliningPreserves: asks that programs be single-assignment and that the producers the pass inlines cover
  their tensor, their loads being of its shape.
- DeadCode.DeadCallsPreserve: asks that each kept call determine its output from its loads and that other
  stored tensors be private; the rebuilding of tensor lists is left out.
- DeadCode.DeadStoresPreserve: asks that each temporary have one store node and be loaded textually after it
  or by it.
- Decomposition.DecompositionPreserves: dtypes of temporaries are not modelled, and extents are integers. A
  transpose call has its operand.
- Decomposition.ElementwiseDecompositionPreserves: below another operator no candidate is made of constants alone,
  whose value is a scalar without cells of its own.
- Axes.NormalizationPreserves: asks that tiles match and names keep axes apart; without user-given shape symbols;
  the signature strings between analysis and grouping are replaced by the tensor and dimension they encode.
- LoopRules.FissionPreserves: takes all hazards as carried by the loop variable, which the source checks only
  in part; access sets are taken from a single tree, not from an e-class.
- LoopRules.FusionPreserves: the different-range branches with temporary loops are left out, and so are loop
  insertion, deletion, factoring and exchange rules.
- LoopExact.FissionExact: constant tiles in the stores' indices are not empty; single stores, at every end up to a
  bound (`TraceExact.OneEndIff` takes any bodies at one end).
- TraceExact.RunsExact: constant tiles are not empty; machines of logs stand for the machines that keep regions apart.
- TreeRules.OptimizedProgramPreserves: fused nodes have as many members as each other and members that do not
  conflict; both bodies of a split node store something. What holds without is `TraceExact.SameProgramIff`.
- SeqRules.ExchangedProgramPreserves: roots are not sequences and no tensor has an empty name.
- MatrixRules.RuleSound: the rules about exp and the constants 0 and 1 are left out.
- Extraction.CountIsListingLength: the memo table of the count is written and never read, so it is not kept.
  The semi-expression listing and the memoised counter without the commutativity filter are left out.
- Reshapes.ReshapeToLoop: the variants that drop several unit axes, expand dimensions or match greedily are
  left out; extents are positive. `_concat_to_loop_ast` and `_transpose_to_loop_ast` are left out.
- Reshapes.ReshapeIsRowMajor: takes as hypothesis what the two axis operators do to a tile
  (`MoveAxisReshapes` gives an arithmetic that does it).
- InnerLoops.RemovalIsComplete: nested loops have different variables and no name starts with `v_v_`. As in the
  source, elements of the loop variable below a sequence are not looked for, so such a loop is eligible.
- InnerMeaning.RemovedKeepsMeaning: asks that each removed loop walk over one dimension of an elementwise nest of one
  store and cover it.
- Selection.SelectionCovers: the later local refinement of the selection is left out.
- Canonical.CanonicalIffRenamed: number syntax is a parameter that refuses aliases.
- Formatter.FormatRoundTrip: trees with a list in head position, which the source prints with the host
  language's list syntax, are left out.
- IrText.PrintedStatementParses: stated for any operator table, of which the parser's own is one (`IrText.ParseIr`);
  roles are input, output or none; the final stripping of inline texts, which have no surrounding space, is left out.
- IrMeaning.PrintedStatementMeans: for statements without loops, ranges and shifted tiles, which the parser does not
  read, whose operators have the operands their names call for; the machine treats a generic operator that has the
  name of a built-in one as that one.
- InlineScope.NothingLeftToInline: a call that loads its own output may be left, and then goes on being loaded.
- CountExact.CountIsNumberOfTrees: no class holds a node twice.
- DecompositionExact.DecomposedIff: asks that the shapes of all loaded tensors be recorded.
- FusionExact.PlanIsComplete: calls whose signatures agree load and store as many tensors, as
  `Signatures.SignatureLossless` shows of the signatures the source makes.
- Extraction.CountIsExact: nothing in the optimizer ever marks a node as deleted (optimizer/src/language.rs:1058,
  optimizer/src/postprocess.rs:50), so the count is exact there.
- Shape-operator inlining, copy and identity elimination, short-loop unrolling by text, broadcast, slice and
  scatter lowering, e-graph loading and saving: left out.
