# CREXX: verified models of its assembler, compiler, trees, tables and VM

CREXX is a REXX toolchain: a compiler, an assembler with a keyhole optimiser, a virtual
machine, and a bundled LALR parser generator. This project models the parts whose
correctness is a property of whole runs and proves those properties.

* **Keyhole optimiser.** `Assembly` and `Machine` give assembler items and a small-step
  machine. Branches, swaps and string concatenation have the interpreter's meaning; all
  other instructions are a parameter, split only into those whose registers are known and
  the rest. `KeyholeRules` is the rule table and the matcher as data and functions,
  `KeyholeEffect` says without the table what each rule set does to the window,
  `Simulation` proves three kinds of program change meaning preserving, and `KeyholeSound`
  puts these together, asking only of the match itself what the matcher fails to check.
  `KeyholePasses` is the optimiser's loop as functions; `KeyholeMatch`, `KeyholeRing` and
  `KeyholeTermination` say when it ends for any window, `KeyholeChains`, `KeyholeJoins`,
  `KeyholeQueued`, `KeyholeExact` and `KeyholeRunaway` when it ends for the windows it is
  given, by a condition on the window alone. `KeyholeRun` is the run over a whole source
  file, `KeyholeUniform` gives source files on which every match is right, `Keyhole` is
  the optimiser with its window as an object, and `KeyholeLimits` says exactly where the
  rules fail.
* **Label threading.** `LabelThreading` sweeps the label table until nothing changes;
  `Backpatch` builds the table, writes the addresses and compares the two binaries.
* **Code generation.** `Registers` is the scope's register count and ordered free list,
  `Expressions` the register walk and the emitted code. `RegisterUse` says which registers
  the walk takes and how many, `CodeSize` how many items the code has. `Instructions` says
  by their text what the instructions do, and gives a machine that has them all;
  `ExpressionCode`, `ExpressionProof` and `Compiling` are the proof that the code computes
  the expression. `DoLoop` is the counted loop around any body, `CountedLoop` the whole of
  it, with the code of its clauses, and `LoopLabels` shows that all it asks for can be met.
* **AVL trees.** `AvlShape` ... `AvlTree` are the parent-pointer trees on heap nodes, with
  insertion and removal by relinking, `AvlTraverse` the traversals, `InstructionTable` the
  lookup of all forms of one mnemonic.
* **Parser generator.** `ActionTable` compresses the action table, `FirstSets` and
  `FollowSets` are the two fixpoints, `MergeSort` and `ListSort` the list sort and
  `SortTies` the order of its equal elements.
* **Virtual machine.** `FrameValues` and `FrameMachine` model who owns the values behind
  the register slots, `FrameSteps` says what each instruction and each call and return does
  to the slots, `FrameLeaks` what is never freed. `Utf8Cursor` is the cached position in a
  UTF-8 string.

A method that changes state is tied by its `ensures` to a function or relation on values;
the lemmas about that function carry the properties. AVL nodes are heap objects; a ghost
map from nodes to their fields, kept equal to the heap, carries the proofs. Trees are
described by a tree value and a path from a subtree to the root.

Properties that turn out to need a condition carry it, and a lemma shows the condition is
exact or gives the input that fails without it:

* The keyhole matcher compares register numbers, not kinds (`rxas_opt.c:445-446`, `552`),
  and sees only registers an instruction names: `KeyholeLimits.BranchExact`,
  `SwapExact`, `AppendExact`, `ImplicitGapExact`, `GapExact`, and a whole program that changes its
  meaning in `ConflatedDiffers`.
* A single match is right under `KeyholeSound.Right`, which looks at the matched items and
  the gap only. `KeyholeLimits` shows what it asks exact for merged branches, for
  concatenations, for adjacent swaps, and for one instruction between two swaps unless its
  meaning is fixed.
* The optimiser's outer loop need not end, as `KeyholeLimits.BackwardRepeats` shows. For
  any window with unique labels it ends if and only if no window that it comes to has a
  ring: `KeyholeTermination.EndsUnlessRing`. For a settled window and one more item, which
  is all the assembler ever gives it, it ends if and only if the window is not a
  `KeyholeRunaway.Runaway`, a test of at most twice as many steps as the window has items:
  `KeyholeRunaway.EndsExact`, and for a whole source file `KeyholeRun.HaltsExact`. A chain
  of branches that goes round is not enough for it: `KeyholeLimits.OppositeEnds`.
* `optimise_labels` skips only a branch to its own label, so other cycles keep it running:
  `LabelThreading.CycleNeverEnds`.
* `get_regs` for one register, which is what a call without arguments asks for, can hand
  out a register that stays free: `Registers.GetOneExact`.
* The hole search of `acttab_insert` can run out although room was made. All sets still
  read back if and only if the place where it stops is a duplicate or free:
  `ActionTable.ReadExact`; otherwise a set is lost, as after the twenty insertions of
  `ActionTable.Overcrowd`, or the write leaves the array: `ActionTable.PastEndExact`.
* `msort` loses elements from 2^30 on: `MergeSort.SortPermutes`. It is not stable:
  `SortTies.NotStable`; `SortTies.SortTies` says where equal elements end up.
* A call with arguments does not free what its result register held, so at the end of a
  program some values are left if and only if some result took the place of a value of the
  caller's: `FrameLeaks.EndExact`, and such a run in `FrameLeaks.CallLeaks`.

## Model

| member | source | states |
|---|---|---|
| KeyholeEffect.SwapEffect | assembler/rxas_opt.c:265-277 | either swap rule set removes two swaps of equal register numbers, the first such pair, whose gap holds no label, no branch or call and no mention of the two local registers, and touches nothing else |
| KeyholeEffect.ShortenEffect | assembler/rxas_opt.c:279-287 | the concatenation rule sets replace one instruction by the two-operand form with the first and third operand |
| KeyholeEffect.ThreadEffect | assembler/rxas_opt.c:289-354 | each branch rule set retargets one branch to a label, at its first place behind, that stands before another branch, and places at most one new label behind that one; paired label and branch slots name one label |
| KeyholeEffect.ScanSwap | assembler/rxas_opt.c:826-856 | a match of a second swap: every skipped item passed the hazard and relevance checks |
| KeyholeEffect.ThreadWrite | assembler/rxas_opt.c:858-951 | outputs are written from the last matched position back, so that earlier positions stay valid and a generated label is made once, by the first output that needs it |
| KeyholeRules.ScanHits | assembler/rxas_opt.c:826-856 | matched positions ascend and lie inside the window |
| Keyhole.FindMatch | assembler/rxas_opt.c:811-856 | the matching loop finds a match exactly if the rules have one from this position, with the same operands and positions |
| Keyhole.Optimiser.WriteOut | assembler/rxas_opt.c:858-951 | the output loop leaves the queue and label counter that the rules call for |
| Keyhole.Optimiser.OptimiseRuleInQueue | assembler/rxas_opt.c:960-981 | one rule set is applied at the first position where it matches, or nothing changes |
| Keyhole.Optimiser.Optimise | assembler/rxas_opt.c:983-992 | when the passes end the loop leaves the window they settle at; no two swaps, no concatenation onto the first operand and no branches that the rule sets look for are left in it |
| Keyhole.Optimiser.QueueInstruction | assembler/rxas_opt.c:994-1026 | output, window and label counter are where the functional run over all items so far is; again nothing that a rule set looks for is left in the window |
| Keyhole.Optimiser.Flush | assembler/rxas_opt.c:1066-1083 | the whole window moves to the output |
| Keyhole.Optimiser.Procedure | assembler/rxasassm.c:671-691 | a procedure starts after the window has been moved out |
| Keyhole.Assemble | assembler/rxas_opt.c:983-1083 | gives out what the functional run gives, the end of which holds nothing a rule set looks for, and if labels are unique and every match on the way is right that means what the input means, for every meaning of the other instructions |
| Simulation.ThreadAdvance | interpreter/rxvmintp.c:663-697 | a branch to a label before a branch and its retargeted form reach corresponding states with all registers equal, whichever way the conditions fall |
| Simulation.PairAdvance | interpreter/rxvmintp.c:624-629 | with and without the two swaps corresponding states differ by the exchange of the two registers between them and not at all outside |
| Simulation.QuietCommutes | assembler/rxas_opt.c:367-422 | an instruction that uses neither of two registers, by name or by counting in one, commutes with their exchange |
| Simulation.Meet | assembler/rxas_opt.c:238-262 | however far the two runs go they meet again in corresponding states |
| Simulation.RewriteKeepsMeaning | assembler/rxas_opt.c:203-262 | from every label both programs end alike or run for ever, and pass through the same outside worlds |
| KeyholeSound.RuleKeepsMeaning | assembler/rxas_opt.c:811-955 | a right match: the rule set applied anywhere in the window keeps the meaning of the whole program around it, whatever that holds |
| KeyholeSound.RuleKeepsTidy | assembler/rxas_opt.c:755-795 | every application, right or not, keeps labels unique, and a generated label never meets another |
| KeyholeMatch.MeetsApplies | assembler/rxas_opt.c:289-354 | a branch rule set matches wherever its two branches and the label stand so |
| KeyholeMatch.AppliesMeets | assembler/rxas_opt.c:289-354 | and nowhere else |
| KeyholeMatch.PairApplies | assembler/rxas_opt.c:265-277 | a swap rule set matches wherever two swaps of one pair stand with nothing between them that is a label, a branch or a call or that mentions the two local registers |
| KeyholeMatch.ConcatApplies | assembler/rxas_opt.c:279-287 | a concatenation rule set matches wherever a concatenation has one register number in its first two operands |
| KeyholeMatch.AppliesExact | assembler/rxas_opt.c:265-354 | all eleven rule sets match in these places and nowhere else |
| KeyholeRun.SettledExact | assembler/rxas_opt.c:983-992 | so a window is settled if and only if it holds no such place |
| KeyholePasses.PassInOrder | assembler/rxas_opt.c:960-981 | a pass takes the eleven rule sets in the order of the table |
| KeyholePasses.RestIs | assembler/rxas_opt.c:983-992 | however many passes it takes, the window they settle at is one |
| KeyholeRing.RingNeverEnds | assembler/rxas_opt.c:983-992 | a branch whose chain stays on branches of its own condition for ever: every pass changes something, for ever |
| KeyholeTermination.EndsUnlessRing | assembler/rxas_opt.c:811-992 | the loop ends if and only if no window it comes to has such a ring, for every window with unique labels |
| KeyholeExact.QueuedExact | assembler/rxas_opt.c:983-1026 | where all work left to do concerns one branch: the loop ends if and only if the first chain to it comes to no ring |
| KeyholeRunaway.LoopsExact | assembler/rxas_opt.c:983-1026 | following a chain for a bounded number of steps decides whether it comes to a ring |
| KeyholeRunaway.EndsExact | assembler/rxas_opt.c:983-1026 | after one more item the loop ends if and only if that item is no brt or brf behind a label whose first branch leads into a loop on its condition |
| KeyholeRun.HaltsExact | assembler/rxas_opt.c:983-1083 | on a source file with unique labels the optimiser comes to rest after every item if and only if no item makes the window such a runaway |
| KeyholeRun.RunKeepsMeaning | assembler/rxas_opt.c:983-1083 | what the run gives out means what it was given, as long as each match was right |
| KeyholeUniform.UniformAllRight | assembler/rxas_opt.c:438-448 | every match is right if the source file tests each register number as one register, concatenates onto a register by naming it twice, swaps local registers only and uses none of these without naming it |
| KeyholeLimits.BranchExact | assembler/rxas_opt.c:438-448 | two conditional branches whose registers share a number may be merged if and only if they are the same register |
| KeyholeLimits.SwapExact | assembler/rxas_opt.c:438-448 | two adjacent matched swaps cancel if and only if they name the same pair, or each names one register twice |
| KeyholeLimits.AppendExact | assembler/rxas_opt.c:279-287 | a matched concatenation acts as the append if and only if its first two operands are one register and the third is another |
| KeyholeLimits.ImplicitGapExact | interpreter/rxvmintp.c:631-658 | an instruction that steps a register it does not name may stand between removed swaps if and only if they do not concern that register |
| KeyholeLimits.GapExact | assembler/rxas_opt.c:367-422 | around any one instruction without a fixed meaning two swaps of a pair may be removed, for every such meaning, if and only if it uses neither register and both are local |
| KeyholeLimits.ImplicitGapMatches | assembler/rxas_opt.c:367-422 | yet the rule matches around every such instruction |
| KeyholeLimits.ConflatedMatches | assembler/rxas_opt.c:318-325 | a brt on a local register is merged with a brt on the global register of the same number |
| KeyholeLimits.ConflatedDiffers | assembler/rxas_opt.c:318-325 | and the resulting program runs differently |
| KeyholeLimits.BackwardRepeats | assembler/rxas_opt.c:983-992 | two branches on one condition that go to each other: a third is rewritten to and fro, and the loop never ends |
| KeyholeLimits.OppositeEnds | assembler/rxas_opt.c:342-354 | a chain that goes round through a branch of the opposite condition still comes to rest, as the label put behind that one stops it |
| LabelThreading.FindPatchIndex | assembler/rxasassm.c:68-83 | the walk over all reference lists finds the label an operand cell belongs to |
| LabelThreading.OptimiseLabels | assembler/rxasassm.c:87-118 | ends unless a chain of branches runs into a cycle; each label then stands at the first instruction of its chain that is no branch to a defined label, in whatever order labels are visited |
| LabelThreading.CycleNeverEnds | assembler/rxasassm.c:95-117 | if some chain runs into a cycle and its label does not stand at a branch to itself, every pass changes something |
| LabelThreading.EndUnique | assembler/rxasassm.c:95-117 | a chain of branches has one end |
| Backpatch.Builder.EmitLabel | assembler/rxasassm.c:348-380 | a label operand's cell is linked to the label of that name and to no other; all other cells keep theirs |
| Backpatch.Builder.DefineLabel | assembler/rxasassm.c:694-724 | a label gets the current address; a second definition is an error and changes nothing |
| Backpatch.BackpatchLabels | assembler/rxasassm.c:121-154 | each operand cell of a defined label gets its address, all other cells stay; a label is reported exactly if it is used and not defined |
| Backpatch.Backpatch | assembler/rxasassm.c:157-160 | with threading each label operand holds the end of its label's chain, without it the label's own address, and all other cells stay; either way the binary does the same work as the one without threading, calls and returns to saved addresses included |
| Backpatch.RunMeets | assembler/rxasassm.c:85-118 | after any number of steps of the threaded code the unthreaded has reached the same state with the same instructions executed |
| Backpatch.ThreadingKeepsWork | assembler/rxasassm.c:85-118 | from every position both binaries execute the same instructions, unconditional branches apart, with the same memory, and end alike, also where an instruction goes on at an address it finds in the memory |
| Registers.GetUses | compiler/rxcpsymb.c:118-136 | a register handed out was not in use and is the only one whose use changes; it is the highest free one, and a new one only when none is free |
| Registers.ReturnFrees | compiler/rxcpsymb.c:139-154 | a returned register is free and nothing else changes; returning it twice does nothing; the list stays ascending |
| Registers.GetRowUses | compiler/rxcpsymb.c:156-210 | for two or more: n registers in a row, all unused before, exactly these in use afterwards |
| Registers.GetRowSource | compiler/rxcpsymb.c:166-209 | the row is the end of the free list if that holds enough in a row, else as many as end the list, up to the newest register, and new ones behind, else all new |
| Registers.GetRowIs | compiler/rxcpsymb.c:166-209 | which of the three it is, by the run found at the end of the list |
| Registers.GetOneExact | compiler/rxcpsymb.c:168-189 | for one register the result stays on the free list if and only if the last two free registers follow each other, and then it is the last but one; otherwise it was unused, is the only one whose use changes, and is the last free register if that is the newest one, else a new one |
| Registers.Scope.Add | compiler/rxcpdary.h:42-65 | append and exchange leftwards is ordered insertion |
| Registers.Scope.GetReg | compiler/rxcpsymb.c:118-136 | the scope's buffer and count change as the free list and count do |
| Registers.Scope.RetReg | compiler/rxcpsymb.c:139-154 | the same for a returned register |
| Registers.Scope.GetRegs | compiler/rxcpsymb.c:158-210 | the same for a row, for one register too |
| Expressions.WalkPool | compiler/rxcpemit.c:399-511 | the walk keeps every register that was in use, and a node's own register was unused before and is in use after |
| Compiling.WalkRegisters | compiler/rxcpemit.c:357-511 | the walk over the scope's own free list gives every node the register of the specification |
| RegisterUse.WalkTakes | compiler/rxcpemit.c:399-511 | in use after the walk are the registers from before, the node's own, and those that operands of and/or took for themselves and do not share with it, all unused before: every other temporary has been returned |
| RegisterUse.ArithmeticTakes | compiler/rxcpemit.c:399-511 | without and/or these are the registers from before and the node's own |
| RegisterUse.WalkNeeds | compiler/rxcpemit.c:399-511 | the count of registers grows exactly by what the expression needs at its widest beyond the free ones: temporaries are used again before a new one is taken |
| RegisterUse.ImmediateOperand | compiler/rxcpemit.c:357-389 | an operation with a constant operand has one constant in its instruction, the right operand, unless the left one is constant and the order matters |
| ExpressionCode.ExactValue | compiler/rxcpemit.c:1356-1528 | when the first operand of every or is zero or one the value of the code is fixed: the short-circuit value |
| ExpressionCode.TruthFixed | compiler/rxcpemit.c:1356-1528 | otherwise its truth is fixed, as long as or occurs only under and, or, not and plus |
| ExpressionCode.LogicRuns | compiler/rxcpemit.c:1356-1528 | short and long form of and/or skip the second operand exactly when the first decides and leave the result in the node's register |
| ExpressionProof.FinalLogic | compiler/rxcpemit.c:456-478 | the register that and/or shares with its operands, taken after both are walked, was free all along |
| ExpressionProof.Correct | compiler/rxcpemit.c:1168-1582 | the code of any expression, anywhere in a program with unique labels, runs through, leaves a value of the expression in its register, and changes no other register that was in use |
| Compiling.LabelNameInjective | compiler/rxcpemit.c:1367-1438 | label texts made of node number and part differ for different nodes and parts |
| Compiling.DecimalValue | compiler/rxcpemit.c:1367-1438 | the number in a label is written in decimal digits without leading zeros |
| Compiling.LabelTexts | compiler/rxcpemit.c:1367-1438 | the texts of the labels of and/or |
| CodeSize.EmitSize | compiler/rxcpemit.c:1356-1528 | how many items the code has: and/or takes three less when the first operand shares its register, and a copy is emitted only where registers differ |
| CodeSize.NoSelfCopy | compiler/rxcpemit.c:1356-1582 | no instruction copies a register onto itself |
| Compiling.EmitLabels | compiler/rxcpemit.c:1356-1528 | so the code of a tree with unique node numbers defines each label once |
| Compiling.ExpressionCorrect | compiler/rxcpemit.c:444-491 | the same for a whole expression compiled on its own, with no label assumption left |
| Compiling.AssignCorrect | compiler/rxcpemit.c:1684-1699 | an assignment leaves a value the expression had before in the variable, even if the variable occurs in it, and changes no other register in use |
| Instructions.IntegerMachineComputes | interpreter/rxvmintp.c:418-428 | a machine exists, for every arithmetic, on which each instruction does by its text what the proofs ask: iadd ... ilte, load, icopy, copy, not, inc, and bcf, which branches at zero and counts down otherwise |
| Instructions.PlainIs | interpreter/rxvmintp.c:418-428 | and an arithmetic that is all that is asked of it |
| DoLoop.LimitCheck | compiler/rxcpemit.c:1892-1997 | each form of the TO test leaves the loop exactly when the control variable has passed the limit in the direction of the step |
| DoLoop.CountCheck | interpreter/rxvmintp.c:2017-2028 | the FOR test, a bcf to the end label, leaves the loop at zero and counts down otherwise |
| DoLoop.Round | compiler/rxcpemit.c:1795-1838 | from the start label: out of the loop, or once through body and tail, whatever code these are, and then back with the step added, or out where they leave the loop |
| DoLoop.ReachIs | compiler/rxcpemit.c:1892-1997 | floor((b - a) / c) + 1 counts the values not past the limit, for rising and falling steps |
| DoLoop.LoopCorrect | compiler/rxcpemit.c:1795-2095 | any body runs exactly for a, a + c, ... while limit and count last and it does not leave the loop, as LEAVE, WHILE and UNTIL do, and the control variable ends at the next value, or at that of the round it was left in |
| CountedLoop.HeaderRuns | compiler/rxcpemit.c:1837-1905 | the code of TO, BY and FOR, in any order, leaves a value of each expression in its register and changes no register in use |
| CountedLoop.StepKinds | compiler/rxcpemit.c:1898-1933 | the sign of the step is taken as known exactly without BY or with a constant there; zero counts as positive |
| CountedLoop.CheckOrder | compiler/rxcpemit.c:1837-1864 | count and limit are tested in the order the clauses are written |
| CountedLoop.WholeLoop | compiler/rxcpemit.c:1684-2095 | the whole code of do i = a to b by c for n, with or without WHILE or UNTIL: the start label is reached with the first value and the clauses' values in place, and from there the loop runs as above; limit and step may be one variable |
| LoopLabels.LoopLabels | compiler/rxcpemit.c:1795-2095 | with node numbers used once each, all labels of the clauses, the loop and its body are different |
| LoopLabels.LoopMet | compiler/rxcpemit.c:1795-2095 | all that the theorem about the whole loop asks for holds at once of an empty loop on the machine above, for any clauses |
| Keys.CompareIsTotalOrder | machine/rxvminst.c:279-292 | the comparison of instructions is a strict total order |
| Keys.NameOrderIsCoarser | machine/rxvminst.c:311-317 | instructions of one name are neighbours in that order |
| Keys.CompareExact | machine/rxvminst.c:279-292 | it is the order by the first byte in which the names differ, and for one name by the operand types from the first on |
| AvlRotate.RotateShape | avl_tree/avl_tree.c:190-258 | relinking at a rotation turns a linked tree into the rotated linked tree, in place in the whole tree |
| AvlRotate.DoubleShape | avl_tree/avl_tree.c:260-306 | the same for a double rotation |
| AvlBalance.DoubleInOrder | avl_tree/avl_tree.c:260-306 | a double rotation keeps the in-order sequence |
| AvlGrowth.GrowthSingle | avl_tree/avl_tree.c:356-400 | after growth a single rotation restores exact balance factors and the old height |
| AvlGrowth.GrowthDouble | avl_tree/avl_tree.c:400-436 | so does a double rotation, for all three balances of the middle node |
| AvlShrink.ShrinkSingle | avl_tree/avl_tree.c:590-627 | after shrinkage a single rotation restores exact balance factors; the subtree is shorter by one, or not if the sibling was even |
| AvlShrink.ShrinkDouble | avl_tree/avl_tree.c:627-648 | after a double rotation the subtree is shorter by one |
| AvlUnlink.SwapShape | avl_tree/avl_tree.c:654-714 | the node with two children and its successor have exchanged places and links |
| AvlUnlink.SwapBalanced | avl_tree/avl_tree.c:654-714 | on the path from where the successor was, exactly one subtree is one shorter than its parent's balance says |
| AvlTree.Handle.HandleSubtreeGrowth | avl_tree/avl_tree.c:334-439 | either the whole tree is in order, or only one balance factor has changed and the parent has grown by one |
| AvlTree.Handle.Bain | avl_tree/avl_tree.c:462-508 | linking a leaf and rebalancing leaves a balanced linked tree with the same in-order sequence |
| AvlTree.Handle.Lookup | avl_tree/avl_tree.h:141-157 | finds the node with the key if there is one, in at most as many comparisons as the tree is high |
| AvlTree.Handle.Insert | avl_tree/avl_tree.h:242-264 | insert if absent: the existing node and an unchanged tree, or a sorted, exactly balanced, linked tree with the item at its place in the sequence, after at most one single or double rotation |
| AvlTree.Handle.HandleSubtreeShrink | avl_tree/avl_tree.c:540-648 | either the whole tree is in order, or exactly the subtree now reached is one shorter than the next ancestor's balance says |
| AvlTree.Handle.Remv | avl_tree/avl_tree.c:735-790 | exactly the node is gone from the sequence; the tree is sorted, exactly balanced and linked |
| AvlBalance.SizeBound | avl_tree/avl_tree.c:334-508 | a balanced tree of height h has at least Fib(h + 2) - 1 nodes |
| AvlTraverse.NextOrPrev | avl_tree/avl_tree.c:64-95 | the next or previous node through parent pointers is the neighbour in the in-order sequence |
| AvlTraverse.ForEachInOrder | avl_tree/avl_tree.c:36-95 | the traversal visits every node once in ascending order |
| AvlTraverse.NextPost | avl_tree/avl_tree.c:115-126 | the next node in postorder, without looking at the node before, which may be released |
| AvlTraverse.FreeTree | avl_tree/rxastree.h:69-77 | every node is released once, children first, and no released node is read |
| InstructionTable.FirstInstruction | machine/rxvminst.c:364-390 | the first instruction in order with the name, or none if there is none |
| InstructionTable.NextInstruction | machine/rxvminst.c:394-411 | the next instruction if it has the same name; otherwise no later one has it |
| InstructionTable.AllForms | machine/rxvminst.c:364-411 | both together list exactly the instructions with the name, in order |
| ActionTable.LookupExact | lemon/lempar.c:132-141 | formulas (A) and (B) give the set's action for each lookahead, or the default |
| ActionTable.DuplicateExact | lemon/lemon.c:706-739 | a place where all pairs match and as many slots claim the offset as there are pairs is an exact copy |
| ActionTable.FitExact | lemon/lemon.c:741-768 | written at a free place, the new set reads back exactly |
| ActionTable.FitKeeps | lemon/lemon.c:741-768 | and no set inserted earlier is disturbed |
| ActionTable.ActTab.Action | lemon/lemon.c:639-664 | the pending set grows by the pair and its least and greatest lookahead stay known |
| ActionTable.ReadExact | lemon/lemon.c:706-768 | wherever a set is written inside the array, all sets, the new one included, read back if and only if the place is a duplicate or free |
| ActionTable.StopUsable | lemon/lemon.c:706-758 | where the search stops without giving up the place is usable |
| ActionTable.StopExact | lemon/lemon.c:706-758 | the search stops at the highest place where the set stands already, else at the lowest one that fits, and nowhere else |
| ActionTable.AgainStands | lemon/lemon.c:706-739 | a set inserted before, in any order of its pairs, stands where it can be found, unless the new one must be safe and the old offset is negative |
| ActionTable.PastEndExact | lemon/lemon.c:741-768 | where it gives up the write leaves the array exactly if the set holds lookahead zero |
| ActionTable.RoomStops | lemon/lemon.c:688-702 | with room behind the used part for the least and the greatest lookahead and two slots more the search does not give up |
| ActionTable.RoomSafe | lemon/lemon.c:769-775 | and with room for the least lookahead and all terminals a safe set stops where that slot is inside the array |
| ActionTable.ActTab.Insert | lemon/lemon.c:680-775 | a set that stands already, as every set inserted before at an offset that will do, is used again: the array stays, and so does the used size unless the set is safe; every other one goes to the lowest hole, and the used size is the least that covers it. All sets then read back if and only if the place is usable; or the write leaves the array; a safe offset keeps every terminal below the used size, which lies inside the array if and only if the set is not safe or the slot as many places behind its least lookahead as there are terminals does |
| ActionTable.SearchRunsOut | lemon/lemon.c:688-702 | the room that is made is not always enough: the search gives up at a place that another set claims |
| ActionTable.Overcrowd | lemon/lemon.c:639-775 | twenty insertions into a new table lead there, and not all sets read back |
| FirstSets.LambdaExact | lemon/lemon.c:853-868 | sound and closed flags are true exactly for nonterminals that derive the empty string |
| FirstSets.FirstExact | lemon/lemon.c:870-894 | sound and closed sets hold exactly the tokens that can begin a derived form |
| FirstSets.StartsComplete | lemon/lemon.c:870-894 | whatever begins a derived form of any length is found by the tables |
| FirstSets.FindFirstSets | lemon/lemon.c:839-895 | ends for every grammar, multiterminals included, with exact flags and sets |
| FollowSets.Exact | lemon/lemon.c:1109-1139 | a token is in a set if and only if it comes from an initial set along a chain of links |
| FollowSets.Least | lemon/lemon.c:1109-1139 | the sets are the least ones that contain the initial ones and are closed under the links |
| FollowSets.Spread | lemon/lemon.c:1126-1135 | a configuration marked complete is contained in all its successors; one that changes is incomplete again |
| FollowSets.FindFollowSets | lemon/lemon.c:1109-1139 | the loop ends with exactly these sets, in whatever order configurations are visited |
| TokenSets.SetUnion | lemon/lemon.c:5204-5216 | adds every token of the second set and tells whether the first one changed |
| MergeSort.MergedSorted | lemon/lemon.c:1844-1880 | merging two sorted lists gives a sorted list |
| MergeSort.CarryCount | lemon/lemon.c:1911-1914 | the buckets are a binary counter: a filled one below the last holds 2^i cells |
| MergeSort.SortSorted | lemon/lemon.c:1896-1920 | the result is sorted for a list of any length |
| MergeSort.SortPermutes | lemon/lemon.c:1896-1920 | the result is a permutation of the list if and only if it is shorter than 2^30 |
| SortTies.MergedTies | lemon/lemon.c:1844-1880 | merging sorted lists puts the first list's elements before equal ones of the second |
| SortTies.SortTies | lemon/lemon.c:1896-1920 | equal elements: the list is cut into blocks of descending powers of two, which stay in order, each turned round |
| SortTies.NotStable | lemon/lemon.c:1896-1920 | of three equal elements the first two change places |
| ListSort.Merge | lemon/lemon.c:1844-1880 | relinking in place gives the merged list and touches no other cell |
| ListSort.MSort | lemon/lemon.c:1896-1920 | the links follow the sorted list |
| FrameValues.FreeSlotsExact | interpreter/rxvmintp.c:63-70 | freeing a frame frees each value it owns once and no other |
| FrameValues.AdoptValid | interpreter/rxvmintp.c:505-528 | a value of the callee's own may pass to the caller: the invariant still holds, as the caller did not hold it yet |
| FrameValues.CallToValid | interpreter/rxvmintp.c:445-461 | a call that clears its result register keeps the invariant: it leaves no pointer to what it frees there |
| FrameValues.CallWithValid | interpreter/rxvmintp.c:463-491 | so does a call whose arguments are passed by reference |
| FrameValues.MoveValid | interpreter/rxvmintp.c:615-622 | and a move |
| FrameValues.StepValid | interpreter/rxvmintp.c:430-622 | no instruction follows a pointer to a value that is gone, and the ownership invariant holds again |
| FrameValues.RunValid | interpreter/rxvmintp.c:430-561 | in every run no value is freed twice, and every slot of every frame points to an allocated value, which no other slot of the frame that owns it holds |
| FrameSteps.RunsExact | interpreter/rxvmintp.c:430-622 | an instruction faults exactly when a register it names is missing or it follows a null pointer; a result nobody wants is not looked at |
| FrameSteps.CallToStep | interpreter/rxvmintp.c:445-461 | the result register is cleared and what the frame owned there is freed, all other slots stay, and the new frame has locals and a count of its own and the globals |
| FrameSteps.CallWithStep | interpreter/rxvmintp.c:463-491 | the callee's argument slots are the caller's from the argument register on, and the caller's slots stay |
| FrameSteps.ResultReturn | interpreter/rxvmintp.c:505-561 | of the caller's slots only the result register changes: it holds the callee's own value, the caller's from now on, or else a new value of the caller's; what else the callee owns is freed |
| FrameSteps.PlainReturn | interpreter/rxvmintp.c:493-503 | without a result, or one that is wanted, the frames below stay as they are |
| FrameSteps.SwapStep | interpreter/rxvmintp.c:624-629 | two slots change places, all other slots and frames stay |
| FrameSteps.MoveStep | interpreter/rxvmintp.c:615-622 | the first register gets what the second one had, which is null then; what the frame owned there is freed, all other slots and frames stay |
| FrameSteps.CallResult | interpreter/rxvmintp.c:445-561 | from a call to its return, whatever is called in between: the caller's slots are as before but for the result register, which holds the result |
| FrameSteps.CallNoResult | interpreter/rxvmintp.c:430-561 | without a result all of the caller's slots are as before, or the result register is empty where the call cleared it |
| FrameLeaks.StepExact | interpreter/rxvmintp.c:463-561 | every value stays in a slot of its owner if and only if no result takes the place of a value the caller owns |
| FrameLeaks.RunLost | interpreter/rxvmintp.c:430-622 | a value in no slot is never found again and never freed |
| FrameLeaks.EndExact | interpreter/rxvmintp.c:430-622 | when a program has ended all values but the globals' have been freed if and only if no result on the way took such a place |
| FrameLeaks.CallLeaks | interpreter/rxvmintp.c:463-491 | a call with arguments whose result register holds a value loses that value |
| FrameMachine.Interpreter.Start | interpreter/rxvmintp.c:264-272 | the first frame has locals, globals and as its own the command line's values and their number; it meets the ownership invariant |
| FrameMachine.Interpreter.FreeFrame | interpreter/rxvmintp.c:63-70 | the loop over the slots frees exactly these values |
| FrameMachine.Interpreter.Execute | interpreter/rxvmintp.c:430-622 | each instruction, executed on the machine's own fields, frees and leaves what its step does; FrameSteps says what that is |
| FrameMachine.Interpreter.Finish | interpreter/rxvmintp.c:2325-2340 | the remaining frames and then the globals are freed, nothing twice, and nothing stays allocated if every value was in a slot of its owner |
| Utf8Cursor.SizeOfChar | utf8/utf.h:1171-1185 | the size of a valid character is read off its first byte |
| Utf8Cursor.BackSize | utf8/utf.h:1187-1195 | stepping back over continuation bytes finds the start of the character before |
| Utf8Cursor.WalkOffsets | interpreter/rxvmvars.h:448-456 | a plain walk from the start finds each character of a valid string |
| Utf8Cursor.Cursor.SetBytePos | interpreter/rxvmvars.h:451-525 | step on, step back and the walks from end, start and current position all end where the plain walk does, after at most one step or as few as from the nearest of the three |

## Left out

- Keyhole.Optimiser.Optimise: asks that the passes end, because the source's loop does not
  end otherwise; KeyholeTermination.EndsUnlessRing says when they do.
- Keyhole.Optimiser.QueueInstruction: asks the same of the new window;
  KeyholeRunaway.EndsExact says when it holds.
- Keyhole.Assemble: asks the same of every item; KeyholeRun.HaltsExact says when it holds.
  Its meaning is promised for right matches only: a wrong one changes the meaning of some
  program, as KeyholeLimits shows.
- KeyholeSound.RuleKeepsMeaning: asks for a right match: of the gap between two swaps, that
  its instructions use neither register and, unless both are local, have a fixed meaning, as
  one that may stop the program would show the exchange (KeyholeLimits.GapExact); amap,
  which makes two registers one, is left out of gaps. Whether a concatenation of a
  register onto itself means the same as the append is left to the machine's parameter.
- LabelThreading.OptimiseLabels: asks that chains of branches end, because the source's
  loop does not end otherwise; see LabelThreading.CycleNeverEnds.
- ActionTable.ActTab.Insert: stops at a write outside the array (PastEnd), which C leaves
  undefined; ActionTable.PastEndExact says when it happens.
- Registers.Scope.GetRegs: promises an ordered list only for two or more registers.
- DoLoop.LoopCorrect: whenever the run comes to the body or to the tail it comes to the end
  of that, or out of the loop, with the loop's registers as they were. WHILE's test is the
  beginning of the body and UNTIL's the tail; that they test a condition is not stated. A
  step of zero is left out.
- CountedLoop.WholeLoop: asks for TO or FOR, and that no clause is the control variable
  itself; a negative count is left out too.
- The keyhole queue's fixed buffer of 60 entries, and the operand classes of the matcher
  that no rule uses (integer, string, character, float, procedure).
- Two register slots that refer to one value in the assembler machine (an argument passed
  twice); ownership is modelled in FrameValues instead, without the values' contents.
- What a call does inside the assembler machine: it is one instruction with any effect.
- AST nodes as mutable objects: register numbers are returned in a new tree. Swapping a
  constant operand to the right is done there too.
- Function calls, strings, floats and type promotion in expressions; IF and other statements.
- ret_regs, which has no caller.
- Fallback and wildcard tokens in the parser's lookup; parser state and its stack.
- Symbol tables that map names to grammar symbols; states and configurations are numbers.
- The packed parent/balance word of a tree node, modelled as two fields.
- Integer width: counts and positions are unbounded, so a cursor step needs strings
  shorter than 2^31 bytes, as the int difference in the source does.
- AMAP in the ownership model: it can leave a value in two slots.
- Overflow of the interpreter's integers in DoLoop; expressions take any arithmetic.
