# Diff, merge and editor algorithms, verified

A Dafny model of the comparison engine of a code editor and of the algorithms around it, with proofs
about all inputs and all runs.

* **Line diff.** `Text` splits and tokenizes, `TextLaws` says what that means byte by byte; `CommonSubsequence` holds
  the two dynamic programs and their maximality; `ExactAlignment`, `UniqueAnchors` and `LineDiff` are the exact aligner, the patience anchors and
  the anchored recursion; `EditScript` says what a correct script is, `LineDiffLaws` what a good one is.
* **Compare model.** `LineSimilarity` and `HunkAlignment` pair the lines of a hunk and `HunkPairing` says which, without
  the cost table; `ChangedUnits` and `Intraline` mark what changed within a row, `TrimmedSpans` and `RowMarks` say what
  the marks cover and leave; `CompareRows` assembles rows and hunks, `CompareLaws` ties them to the diff.
* **Three-way merge.** `SideChanges` turns a diff into interval changes, `MergeGroups` sweeps them into groups,
  `MergeModel`, `MergeLaws`, `MergeChoices` and `MergeBuild` are hunks, choices and results, `MergeDisplay` the three
  panes; `SideChangeLaws`, `MergeCover` and `MergeDisplayLaws` say what changes leave alone, which lines hunks cover and
  what display rows say.
* **Views of a diff.** `Presentation` collapses unchanged runs; `ReviewMarkers` resolves review state per hunk;
  `PresentationLaws` and `ReviewLaws` say row by row and hunk by hunk what a reader of them learns.
* **Editor.** `EditPositions`, `EditBatch` and `EditApplication` treat edit coordinates and batches of edits
  (the batch rules are those of section "TextEdit[]" of the Language Server Protocol Specification 3.17),
  `Breakpoints` the breakpoint store, `Brackets` bracket matching, `Diagnostics` the diagnostics index; `BreakpointLaws`,
  `BracketLaws` and `DiagnosticsLaws` say what a caller sees of each.
* **Rendering policy.** `DirtyRegions` coalesces dirty rectangles.
* `Sorting` specifies the calls to the standard sorts; `Basics` holds small values and sequence facts.

Each loop or in-place update of the source is a method here, proved against a function that says what it computes;
the laws are lemmas about those functions. A `char` stands for one byte of a line. Doubles are reals. Line numbers
and counters are unbounded, except where the source packs them into 32 bits (`ReviewMarkers`).

Where comments of the source and its code disagree the model follows the code:

* `EditsOverlap` is commented as "share at least one byte"; an insertion strictly inside a replaced range counts too.
  `EditApplication.MeetOverOffsets` says exactly when the two readings differ.
* The merged diagnostics cap is commented as keeping the highest severities; the sort is by position first.
  `Diagnostics.CapMayDropSeverest` is an input, `Diagnostics.CapKeepsSeverestIff` the exact condition.
* The breakpoint store speaks of a sorted list with unique lines; replacing everything only sorts.
  `Breakpoints.ReplacementMayRepeatLines` is an input, `Breakpoints.ReplacementOnePerLine` the exact condition.

Before its edges are trimmed a modified row leaves the same text on both sides once its changed spans are deleted;
afterwards it may not. `TrimmedSpans.TrimmingMayGiveTextBack` is such a row, `TrimmedSpans.TrimmedLeavesTheSameIff` the
exact condition, and rows on the codepoint path always meet it.

Check it with `dafny verify dfyconfig.toml`.

## Model

| member | source | states |
|---|---|---|
| Text.SplitLineViews | src/util/StringUtil.cpp:961-980 | LF, CR and CRLF each end a line and what follows the last ending is a line too |
| Text.PhantomIsLast | src/compare/MergeModel.cpp:228-246 | a text that is empty or ends in a newline splits into lines whose last is the empty phantom |
| TextLaws.SplitRejoins | src/util/StringUtil.cpp:961-980 | splitting loses nothing: no line holds a break, a CR and an LF in a row are one ending, and the lines with their endings between them are the buffer |
| Text.LinesEqualIgnoringWhitespace | src/compare/CompareModel.cpp:1359-1380 | the two-cursor walk accepts exactly the pairs that are equal once every ASCII space is removed |
| Text.TokensTile | src/compare/CompareModel.cpp:113-142 | tokens cover a line from its start to its end without gap or overlap |
| TextLaws.TokensAreRuns | src/compare/CompareModel.cpp:85-142 | a token is a symbol byte or a maximal run of word or space bytes, every byte of its kind, and the tokens cover the line |
| TextLaws.CodepointsAreShortestForms | src/util/StringUtil.cpp:247-303 | a codepoint of several bytes is exactly the shortest UTF-8 form of a Unicode scalar value; any other byte stands alone |
| TextLaws.SignificantBytesAreNonSpace | src/compare/CompareModel.cpp:113-142 | the significant bytes of a line are those that are not ASCII spaces |
| Text.TokenizeLine | src/compare/CompareModel.cpp:113-142 | the loop yields the tokens, the positions of the significant ones and their total bytes |
| Text.SignificantTokenBytes | src/compare/CompareModel.cpp:212-228 | the allocation-free scan agrees with the byte total kept by the tokenizer |
| Text.ProductExceedsIsProduct | src/compare/CompareModel.cpp:73-78 | the division test decides `left * right > limit` for all inputs |
| CommonSubsequence.BestIsUpperBound | src/compare/CompareModel.cpp:1105-1123 | no order-preserving pairing of equal elements outweighs the table, for any weights |
| CommonSubsequence.TraceAttainsBest | src/compare/CompareModel.cpp:1125-1147 | the walk back is itself such a pairing and weighs exactly what the table says |
| CommonSubsequence.GreedyIsBest | src/compare/CompareModel.cpp:283-302 | taking every match at the corner gives the same maximum when equal elements weigh the same |
| CommonSubsequence.FillBest | src/compare/CompareModel.cpp:1100-1123 | the nested loops, last row first, fill the table with the maxima |
| ExactAlignment.WalkIsOptimal | src/compare/CompareModel.cpp:1100-1148 | the Equal operations of the backtracked script form an order-preserving pairing of equal lines that no other pairing outweighs, for any weights |
| ExactAlignment.ExactOpsOptimal | src/compare/CompareModel.cpp:1031-1148 | the same for the weights in use and under either line equality |
| LineDiffLaws.LineWeighsItsShare | src/compare/CompareModel.cpp:305-312 | a line weighs its non-space bytes plus eight, divided by how many lines of both sides count as equal to it and rounded down, at least 1; an empty line counts as one byte, a line of spaces as two |
| ExactAlignment.ExactOpsValid | src/compare/CompareModel.cpp:1031-1148 | the exact script spells both sides and pairs only lines that count as equal |
| ExactAlignment.AssignIds | src/compare/CompareModel.cpp:1066-1091 | ids are equal exactly for equal keys, dense, handed out in first-occurrence order, and every id carries its number of occurrences |
| ExactAlignment.MatchWeights | src/compare/CompareModel.cpp:1093-1098 | each left line gets the weight computed from its informative bytes and rarity |
| ExactAlignment.AppendExactLineOps | src/compare/CompareModel.cpp:1031-1148 | interning, table and walk together append exactly the specified script |
| UniqueAnchors.AnchorsAreLongestChain | src/compare/CompareModel.cpp:1153-1239 | anchors ascend strictly on both sides, each is a non-empty line occurring once on each side of the slice, and no longer such chain exists |
| UniqueAnchors.PilesBound | src/compare/CompareModel.cpp:1215-1229 | no ascending chain of the dealt candidates is longer than the number of piles |
| UniqueAnchors.CandidatesAreAnchors | src/compare/CompareModel.cpp:1191-1204 | the candidates are exactly the lines unique on both sides, by ascending left position |
| UniqueAnchors.BuildUniqueLineAnchors | src/compare/CompareModel.cpp:1153-1239 | counting, dealing onto piles and following predecessor links yields the specified anchor chain |
| LineDiff.LineDiffValid | src/compare/CompareModel.cpp:1451-1497 | every diff is a valid edit script: Equal plus Delete texts spell the left lines, Equal plus Insert texts the right, and Equal pairs satisfy the line equality |
| LineDiff.AnchoredOpsValid | src/compare/CompareModel.cpp:1259-1353 | so is the script of every level of the anchored recursion, through the trim, exact, anchored, no-anchor and depth-cap branches |
| LineDiff.LineDiffOfSame | src/compare/CompareModel.cpp:1451-1467 | equal sides diff into Equal operations only |
| LineDiff.TrimEqualEnds | src/compare/CompareModel.cpp:1400-1417 | the two scans find the maximal equal ends, the suffix never reaching into the prefix |
| LineDiffLaws.TrimmedEndsAreMaximal | src/compare/CompareModel.cpp:1400-1417 | the trimmed ends are equal and as long as can be: what is left begins and ends with lines that differ, unless a side is used up |
| LineDiffLaws.AnchoredIsGood | src/compare/CompareModel.cpp:1259-1353 | at every depth the script keeps its equal ends; a middle that fits the table is optimal, a larger one is its anchors with scripts as good between them, and pairs nothing only where there is no anchor or the depth is at its cap |
| LineDiffLaws.LineDiffIsGood | src/compare/CompareModel.cpp:1451-1497 | the same of every whole diff |
| LineDiffLaws.LineDiffIsOptimal | src/compare/CompareModel.cpp:1451-1497 | where the middle fits the table, the Equal operations between the equal ends pair equal lines in order and no such pairing outweighs them |
| LineDiffLaws.LineDiffKeepsAnchors | src/compare/CompareModel.cpp:1243-1353 | where it does not, every anchor of the middle is paired by an Equal operation |
| LineDiff.AppendAnchoredFallbackOps | src/compare/CompareModel.cpp:1243-1353 | the recursion stays within depth 256, appends the specified script, and leaves the anchor list of every live level as it was |
| LineDiff.BuildLineDiffOps | src/compare/CompareModel.cpp:1451-1497 | the whole builder returns the specified script |
| LineSimilarity.CommonBytesIsMaximum | src/compare/CompareModel.cpp:251-303 | within the cell cap the common bytes are the maximum weight over all pairings of equal significant tokens, and some pairing attains it |
| LineSimilarity.CommonWithinBoth | src/compare/CompareModel.cpp:419-424 | the common bytes never exceed either line's significant bytes |
| HunkPairing.SimilarityIsShare | src/compare/CompareModel.cpp:314-334 | the similarity is the share of both lines' significant bytes that a pairing of equal tokens can cover at most; 1 for equal lines and two blank ones, 0 where one is blank or the tokens are too many |
| LineSimilarity.CeilingHolds | src/compare/CompareModel.cpp:419-436 | no similarity exceeds the ceiling computed from the two byte counts |
| LineSimilarity.CommonSignificantTokenBytes | src/compare/CompareModel.cpp:251-303 | the rolling row with its carried diagonal computes the full table's corner; 0 for no tokens or above the cap |
| LineSimilarity.MeasureSimilarity | src/compare/CompareModel.cpp:314-334 | the branches compute the specified similarity |
| HunkAlignment.AlignmentConsumesOnce | src/compare/CompareModel.cpp:357-534 | in every branch, the coarse fallback included, each deleted and each inserted line is taken exactly once |
| HunkAlignment.AlignmentIsNearMinimal | src/compare/CompareModel.cpp:400-534 | below the cap the alignment costs at most (deleted + inserted) epsilons more than any alignment the gate allows |
| HunkPairing.OneAgainstOne | src/compare/CompareModel.cpp:336-355 | one deleted against one inserted line is one pair, whatever the lines |
| HunkPairing.OneAgainstMany | src/compare/CompareModel.cpp:341-355 | one line against several, in a hunk that fits the table, is never paired |
| HunkPairing.PairsAreSimilar | src/compare/CompareModel.cpp:341-355 | of several lines against several only those of similarity at least 0.35 are paired |
| HunkPairing.SimilarLinesAreNotSkipped | src/compare/CompareModel.cpp:400-534 | below the cap no deleted line is left next to an inserted one of similarity at least 0.35 |
| HunkPairing.AlignmentGainsMost | src/compare/CompareModel.cpp:400-534 | below the cap no way to pair similar lines in order has more pairs and similarity taken together, up to a millionth for each line |
| HunkPairing.LargeHunkPairsByPosition | src/compare/CompareModel.cpp:372-391 | above the cap as many pairs are made as the shorter side has lines, and they come first |
| HunkAlignment.ShortcutIsHarmless | src/compare/CompareModel.cpp:404-495 | reporting the ceiling instead of a similarity below the gate, or nothing where no pair is possible, changes no pairing decision |
| HunkAlignment.AlignHunkLines | src/compare/CompareModel.cpp:357-534 | tables, shortcut and walk return the specified alignment |
| ChangedUnits.SidesKeepTheSame | src/compare/CompareModel.cpp:660-740 | whatever pairing is used between the equal ends, both sides keep the same units |
| ChangedUnits.EndsAreLongest | src/compare/CompareModel.cpp:662-682 | the equal ends are equal and the longest: where both sides have units between them the first differ and so do the last |
| ChangedUnits.EndsLoseNothing | src/compare/CompareModel.cpp:662-682 | keeping the equal ends and an optimal pairing of the middle is optimal for the whole lines |
| ChangedUnits.SomethingChanged | src/compare/CompareModel.cpp:684-743 | when both middles have units at least one unit is flagged |
| ChangedUnits.WalkBest | src/compare/CompareModel.cpp:717-738 | the walk through the token table clears exactly the flags of the units it pairs |
| ChangedUnits.WalkGreedy | src/compare/CompareModel.cpp:803-818 | the walk through the codepoint table clears exactly the flags of the units it pairs |
| Intraline.UntrimmedLeavesTheSame | src/compare/CompareModel.cpp:568-593 | before edge trimming, deleting the changed spans leaves the same text on both sides, on the token and on the codepoint path |
| Intraline.CodepointPathKeepsLongest | src/compare/CompareModel.cpp:745-822 | within the cell cap the codepoint path keeps a longest common subsequence of the two whole lines, prefix and suffix shortcut included |
| Intraline.TokenPathKeepsHeaviest | src/compare/CompareModel.cpp:649-743 | what the token path keeps outweighs every pairing of equal tokens of the two lines |
| Intraline.TokenTableFindsSpans | src/compare/CompareModel.cpp:684-743 | once its table is built the token path reports spans, so it never falls through to a second table |
| Intraline.TrimmedInsideWindow | src/compare/CompareModel.cpp:598-647 | after trimming the spans of each side are ordered, disjoint and inside the differing window |
| TrimmedSpans.TrimmedLeavesTheSameIff | src/compare/CompareModel.cpp:598-647 | after trimming the same text is left on both sides exactly when the untrimmed spans left the same text inside the two windows |
| TrimmedSpans.TrimmingMayGiveTextBack | src/compare/CompareModel.cpp:614-647 | for "ab x" against "abc ab x" both sides keep "ab x" before trimming; after it the right keeps "abab x" |
| TrimmedSpans.NothingSticksOut | src/compare/CompareModel.cpp:598-647 | where no span sticks out of its window trimming changes nothing, and the same text is left on both sides |
| TrimmedSpans.CodepointPathStaysInside | src/compare/CompareModel.cpp:745-822 | the spans of the codepoint path never stick out |
| TrimmedSpans.CodepointRowsLeaveTheSame | src/compare/CompareModel.cpp:598-647 | so wherever the token path does not apply the same text is left on both sides after trimming |
| Intraline.ChangedSpansOrdered | src/compare/CompareModel.cpp:824-895 | the spans of every row, refined or whole-line, are ordered, disjoint and inside its text |
| RowMarks.TokensAreMarked | src/compare/CompareModel.cpp:649-743 | the changed spans of a modified row with several tokens on both sides cover, between the equal ends, exactly the tokens outside a heaviest common subsequence, a word weighing its bytes and four more, any other token one |
| RowMarks.CodepointsAreMarked | src/compare/CompareModel.cpp:745-822 | those of any other refined row cover the codepoints outside a longest common subsequence, and above the cell cap everything between the equal ends |
| RowMarks.WindowsLeaveLongestEnds | src/compare/CompareModel.cpp:614-647 | the window of either side is what is left between the longest equal ends of whole codepoints |
| RowMarks.RefinedLeavesTheSameIff | src/compare/CompareModel.cpp:824-895 | deleting the changed spans of a refined row leaves the same text on both sides exactly when, before they were trimmed, the spans left the same text between the equal ends |
| RowMarks.CodepointRowLeavesTheSame | src/compare/CompareModel.cpp:824-895 | it always does where a side has fewer than two tokens or they are too many for the table |
| RowMarks.RefinedKeeps | src/compare/CompareModel.cpp:824-895 | what is left of either side is the equal ends, and between them the text the spans did not cover before they were trimmed |
| RowMarks.OtherRowsAreWhole | src/compare/CompareModel.cpp:829-872 | deleted and added lines and the lines of unrefined rows are changed throughout; nothing is marked where there is no line, nor on an unchanged row |
| Intraline.CellsWithinCharge | src/compare/CompareModel.cpp:861-884 | a row allocates no more table cells than it was charged, and is charged at most the per-pair cap |
| Intraline.HunkCellsWithinBudget | src/compare/CompareModel.cpp:824-895 | over any number of rows one hunk allocates at most its budget plus one per-pair cap |
| RowMarks.RefinedWhileBudgetLasts | src/compare/CompareModel.cpp:861-884 | a modified row of short enough texts is refined exactly while the rows before it asked for less than the hunk's budget, a row asking for its byte table or the per-pair cap |
| Intraline.PopulateTokenChangedSpans | src/compare/CompareModel.cpp:649-743 | succeeds exactly when its gate, decided before any allocation, lets it, and then yields the specified spans |
| Intraline.PopulateCodepointChangedSpans | src/compare/CompareModel.cpp:745-822 | yields the specified spans and allocates one table or none |
| Intraline.TrimSpansToByteWindow | src/compare/CompareModel.cpp:598-612 | the compaction in place leaves the clipped spans |
| Intraline.PopulateChangedSpans | src/compare/CompareModel.cpp:824-895 | spans, remaining budget and allocated cells of a row of any kind |
| CompareRows.RowsRebuildBothSides | src/compare/CompareModel.cpp:1643-1803 | the left-bearing rows in order are the left lines, phantom included, numbered from 1; likewise on the right |
| CompareRows.RowsAndHunksAgree | src/compare/CompareModel.cpp:1678-1803 | hunks are non-empty, ascending and separated by an unchanged row; a row names hunk h exactly when h covers it, and names one exactly when it is not unchanged |
| CompareRows.BuildIsPlaced | src/compare/CompareModel.cpp:1678-1803 | the same for all rows and hunks at once, a joined or separate phantom hunk included |
| CompareRows.UnchangedRowsPairEqualLines | src/compare/CompareModel.cpp:1663-1700 | an unchanged row never shows two lines that differ under the equality in use |
| CompareRows.BuildBears | src/compare/CompareModel.cpp:1678-1803 | an added row, phantom or not, bears a line on the right only, a deleted one on the left only, any other on both sides; a side without a line has no text and no span, an unchanged row no span |
| CompareLaws.BuildShowsDiff | src/compare/CompareModel.cpp:1643-1803 | taking off the equal ends before the diff changes nothing: the rows and hunks are those of the line diff of the two files, then the phantoms |
| CompareLaws.UnchangedRowsAreTheDiff | src/compare/CompareModel.cpp:1678-1803 | the unchanged rows are exactly the pairs of lines the line diff keeps, and the phantoms where both files have one |
| CompareLaws.HunksAlignTheirLines | src/compare/CompareModel.cpp:1702-1762 | the rows of every hunk are the alignment of its deleted with its inserted lines, a one-sided phantom after them |
| CompareLaws.RowsAreMarked | src/compare/CompareModel.cpp:1702-1762 | every row of a hunk is marked with its changed spans, refined while the cells last that the hunk's earlier rows left |
| CompareRows.CompareModel.AppendRunRows | src/compare/CompareModel.cpp:1725-1750 | the rows of a run are the specified ones, and the table cells they take add up to what `Intraline.HunkCells` says, within the hunk budget plus one per-pair cap |
| CompareRows.CompareModel.Rebuild | src/compare/CompareModel.cpp:1522-1548 | rebuilding over the rows of any earlier build gives the rows and hunks of a fresh one |
| CompareRows.CompareModel.AppendPhantom | src/compare/CompareModel.cpp:1766-1802 | the phantom row and the hunk it joins or opens |
| SideChanges.ChangesRebuildSide | src/compare/MergeModel.cpp:37-74 | a side's changes fit the base, never touch each other, and replayed over the base give the side |
| SideChanges.SameHasNoChanges | src/compare/MergeModel.cpp:37-74 | an unchanged side has no changes |
| SideChangeLaws.ChangesLeaveWhatTheDiffPairs | src/compare/MergeModel.cpp:37-74 | a side's changes touch exactly the base lines its diff does not pair: what lies between them is, line by line, what the diff keeps |
| SideChanges.BuildSideChanges | src/compare/MergeModel.cpp:37-74 | the loop over the script yields the specified changes |
| MergeGroups.GroupsPartition | src/compare/MergeModel.cpp:322-335 | the sweep cuts the ordered changes into consecutive groups that do not reach each other |
| MergeGroups.GroupConnected | src/compare/MergeModel.cpp:269-335 | a group is connected: however it is divided in two, some change of one part touches one of the other |
| MergeGroups.GroupsDoNotTouch | src/compare/MergeModel.cpp:269-335 | changes of different groups never touch: the earlier group ends before any change of the later one starts |
| MergeGroups.LineAfterGroup | src/compare/MergeModel.cpp:269-335 | neither side changes the base line at which a group ends, and the next group starts after it |
| MergeLaws.HunksAreComponents | src/compare/MergeModel.cpp:322-335 | hunks are exactly the connected components of the touch relation over both sides' changes |
| MergeLaws.HunksAreApart | src/compare/MergeModel.cpp:322-345 | hunks are numbered in order; the base line at which one ends is before the next, and no change of either side covers it |
| MergeCover.HunksCoverWhatChanged | src/compare/MergeModel.cpp:228-345 | a base line is in a hunk exactly when the line diff to the incoming or to the current text does not keep it; the phantom all three share is in none |
| MergeLaws.ChoosingOneSideRebuildsIt | src/compare/MergeModel.cpp:142-163 | choosing base, incoming or current in every hunk gives exactly that side's lines, whether or not the three agree on the final newline |
| MergeLaws.UnchangedIncomingGivesCurrent | src/compare/MergeModel.cpp:352-363 | bootstrap: incoming equal to base gives current |
| MergeLaws.UnchangedCurrentGivesIncoming | src/compare/MergeModel.cpp:352-363 | bootstrap: current equal to base gives incoming |
| MergeLaws.EqualSidesGiveThatSide | src/compare/MergeModel.cpp:352-363 | bootstrap: equal sides give that side |
| MergeLaws.SwapSwapsHunks | src/compare/MergeModel.cpp:247-345 | exchanging the sides gives the same hunks with their sides exchanged |
| MergeLaws.SwapKeepsBootstrapResult | src/compare/MergeModel.cpp:259-363 | exchanging incoming and current never changes the bootstrap result |
| MergeChoices.FreshHunk | src/compare/MergeModel.cpp:310-320 | a hunk of a fresh merge is a conflict exactly when both sides differ from the base and from each other; otherwise it chooses the side that changed, and a conflict chooses the base |
| MergeChoices.FreshMergeShowsBootstrap | src/compare/MergeModel.cpp:310-363 | what a fresh merge shows is the bootstrap result |
| MergeChoices.BothKeepsBothSides | src/compare/MergeModel.cpp:365-401 | where the sides disagree, choosing both keeps all lines of both, current first unless incoming is asked for first |
| MergeChoices.BothOfCleanMerge | src/compare/MergeModel.cpp:365-403 | in a merge without conflicts every choice of both gives the bootstrap result |
| MergeChoices.BothIsCurrentFirst | src/compare/MergeModel.cpp:365-403 | choosing both is choosing both with current first |
| MergeChoices.SwapSwapsBoth | src/compare/MergeModel.cpp:365-403 | exchanging the sides exchanges the two orders |
| MergeBuild.SettingEveryChoice | src/compare/MergeModel.cpp:142-163 | recording one choice in every hunk of a fresh merge makes the displayed result that side |
| MergeBuild.BuildMergeModel | src/compare/MergeModel.cpp:210-350 | split, diffs, tagging, sort, sweep and slicing build the specified model |
| MergeBuild.ApplySideChangesToSlice | src/compare/MergeModel.cpp:90-116 | the cursor loop replays a side's changes over a slice of the base |
| MergeBuild.CollectMergeResultLines | src/compare/MergeModel.cpp:142-176 | the walk emits the result under the recorded or the bootstrap choices, one empty line for an empty result |
| MergeDisplay.PanesSpellLines | src/compare/MergeModel.cpp:429-531 | the result pane spells the result under the recorded choices, the outer panes that of choosing their side everywhere, each numbered from 1; where no pane has a line each shows one empty line |
| MergeDisplay.OuterPanesSpellFiles | src/compare/MergeModel.cpp:429-531 | for a merge of three texts, whatever choices were recorded since, the outer panes spell the whole incoming and current files |
| MergeDisplay.MergeDisplayIsPlaced | src/compare/MergeModel.cpp:475-508 | for every merge and every recorded choice display hunks are non-empty and ascending, their rows name them and no other row names a hunk |
| MergeDisplayLaws.RowsSayWhatDiffers | src/compare/MergeModel.cpp:429-510 | every hunk's rows put the lines of the three panes side by side from the top, one row for each line of the longest, flagged where a pane differs from the base and where the hunk is a conflict; every other row is the same in all panes and unflagged |
| MergeDisplay.FallbackWhenNothingToShow | src/compare/MergeModel.cpp:513-528 | the fallback for an empty display is taken exactly when no pane has a line |
| MergeDisplay.MergeNeedsNoFallback | src/compare/MergeModel.cpp:513-528 | the display of a merge of three texts always has rows, so the fallback is never taken |
| MergeDisplay.BuildMergeDisplayModel | src/compare/MergeModel.cpp:429-531 | the loops and the fallback build the specified display |
| ReviewMarkers.PositionsAreUnique | src/compare/BranchReviewStateTypes.cpp:26-70 | no two hunks of a built model have the same old and new start |
| ReviewMarkers.BuilderModelsAreBuilt | src/compare/CompareModel.cpp:1643-1803 | every model the compare builder makes has what position uniqueness needs |
| ReviewMarkers.PositionKeyIsInjective | src/compare/BranchReviewStateService.cpp:30-37 | the 64-bit packing tells any two pairs of 32-bit positions apart, negative ones included |
| ReviewMarkers.ScanIsFirstAt | src/compare/BranchReviewStateService.cpp:565-589 | the per-hunk scan is decided by the first entry at the hunk's position |
| ReviewMarkers.NoteFound | src/compare/BranchReviewStateService.cpp:596-623 | the note query succeeds exactly when some note carries the hunk's full identity |
| ReviewLaws.IdentitySpansLines | src/compare/BranchReviewStateTypes.cpp:26-70 | a hunk is known by its hash and, on each side, by the lines its rows bear from the lowest to the highest |
| ReviewLaws.FileStatusMeaning | src/compare/BranchReviewStateService.cpp:451-480 | a file without an entry is not reviewed; one with an entry counts as changed exactly when a diff is at hand and has another fingerprint than a known one the file was reviewed at, or a hunk took the place of a reviewed one |
| ReviewLaws.HunkStatusMeaning | src/compare/BranchReviewStateService.cpp:565-589 | the first stored entry at a hunk's position decides: reviewed when it is the hunk itself, changed since when not; without one the hunk is what its file is |
| ReviewMarkers.AccumulateHunkLineRanges | src/compare/BranchReviewStateTypes.cpp:26-70 | the loop finds the lowest and highest line of each side in the hunk's rows, zeros where a side has none |
| ReviewMarkers.BuildModelHunkIndex | src/compare/BranchReviewStateService.cpp:60-73 | the index finds each hunk by its position key |
| ReviewMarkers.AnyReviewedHunkContentMoved | src/compare/BranchReviewStateService.cpp:78-95 | true exactly when a stored entry of the file sits at a hunk's position with other content |
| ReviewMarkers.BranchReviewStateService.ResolveHunkMarkers | src/compare/BranchReviewStateService.cpp:482-563 | for every stored state, marker i has the status of the per-hunk query for hunk i and the note flag of the hunk-scoped note query |
| Presentation.PresentationTiles | src/compare/ComparePresentationModel.cpp:173-245 | every model row is shown once or hidden in exactly one placeholder; hidden rows are unchanged and counted exactly |
| PresentationLaws.RunIsShown | src/compare/ComparePresentationModel.cpp:173-245 | an unchanged row is shown exactly when it is within the context of a hunk, or expanded, or when fewer rows would be hidden than the threshold; else one placeholder gives the number hidden, the run, the hunks above and below, and whether rows above it are visible |
| PresentationLaws.ChangedRowsAreShown | src/compare/ComparePresentationModel.cpp:173-245 | every changed row is shown |
| PresentationLaws.PlaceholderLeadsOn | src/compare/ComparePresentationModel.cpp:318-338 | a placeholder maps to the next model row shown after it, or to the last before it where none follows |
| Presentation.RowMapFinds | src/compare/ComparePresentationModel.cpp:284-316 | the row map sends a visible row to its own row and a hidden row to its placeholder |
| Presentation.VisibleRowsMapToThemselves | src/compare/ComparePresentationModel.cpp:284-338 | a visible row maps to itself and back, so no model row is shown twice |
| Presentation.ExpandingNeverHides | src/compare/ComparePresentationModel.cpp:185-240 | raising expand counts never hides a model row that was visible |
| Presentation.RebuildingKeepsRows | src/compare/ComparePresentationModel.cpp:147-236 | rebuilding an unchanged model from the states the last build kept gives the same rows |
| PresentationLaws.KeptWhenExpanded | src/compare/ComparePresentationModel.cpp:205-236 | a build carries on the state of a run exactly when the run is long enough to collapse and some of it is expanded |
| PresentationLaws.KeptBelongsToRun | src/compare/ComparePresentationModel.cpp:205-236 | and no state that belongs to no run |
| Presentation.ComparePresentationModel.BuildInto | src/compare/ComparePresentationModel.cpp:142-249 | the build over the recycled slab and the swapped state buffers gives the specified rows and states |
| Presentation.ComparePresentationModel.RowForModel | src/compare/ComparePresentationModel.cpp:284-316 | the scan computes the specified map |
| Presentation.ComparePresentationModel.ModelRowFor | src/compare/ComparePresentationModel.cpp:318-338 | the scans forward and back compute the specified map |
| DirtyRegions.CoalescedIsCoalesced | src/app/DirtyRegionPolicy.cpp:109-133 | the fixpoint loop leaves the bounding boxes of a partition, pairwise not overlapping or nearly touching, that every separated cover of the clips covers |
| DirtyRegions.CoalescedIsFinest | src/app/DirtyRegionPolicy.cpp:109-133 | no partition with separated boxes is finer |
| DirtyRegions.Confluence | src/app/DirtyRegionPolicy.cpp:109-133 | the boxes do not depend on the order or repetition of the clips |
| DirtyRegions.OrderDoesNotMatter | src/app/DirtyRegionPolicy.cpp:109-147 | so the sorted report is the same sequence for every order of the input |
| DirtyRegions.MergedCoversClips | src/app/DirtyRegionPolicy.cpp:109-147 | every clip lies inside a reported rectangle |
| DirtyRegions.MergedAreaWithinSurface | src/app/DirtyRegionPolicy.cpp:149-158 | the summed area of the report never exceeds the surface |
| DirtyRegions.UnionIsHull | src/app/DirtyRegionPolicy.cpp:66-84 | the union of two boxes is the bounding box of all their clips, no clamp taking effect inside the surface |
| DirtyRegions.NearIsTwoPixels | src/app/DirtyRegionPolicy.cpp:50-64 | two rectangles are merged exactly when some pixel of one and some pixel of the other are at most 2 apart in both directions |
| DirtyRegions.ReportReadsAcross | src/app/DirtyRegionPolicy.cpp:135-147 | of two reported rectangles the later starts lower, or at the same height and more than a pixel to the right of the earlier |
| DirtyRegions.ReportCountsPixels | src/app/DirtyRegionPolicy.cpp:149-158 | the summed area of the report is the number of pixels it covers |
| DirtyRegions.Coalesce | src/app/DirtyRegionPolicy.cpp:109-133 | the nested scans with swap and pop in place compute the fixpoint |
| DirtyRegions.AnalyzeDirtyRegions | src/app/DirtyRegionPolicy.cpp:88-161 | rectangles, count and coverage of the report; the minimum with the surface never takes effect |
| EditPositions.InsertedEndAdvances | src/editor/EditTypes.h:72-85 | the counting closed form is the range's start advanced over the inserted text |
| EditPositions.MapCommutesWithSplice | src/editor/EditTypes.h:87-106 | mapping a position commutes with splicing the flat text: at or before the start it stays, inside it lands on the inserted end, after it shifts by the length difference |
| EditPositions.MapIsMonotone | src/editor/EditTypes.h:87-106 | no two positions change order, whether or not a text has them |
| EditBatch.OrderEditsForApplication | src/editor/EditBatchOrder.h:28-55 | the order lists every edit once: highest start first, then the longer range, then the later entry |
| EditBatch.AdjacentDecidesAllPairs | src/editor/EditBatchOrder.h:57-84 | looking at neighbours decides whether any two ranges of the batch meet |
| EditBatch.EditsOverlap | src/editor/EditBatchOrder.h:62-84 | the loop answers the all-pairs question |
| EditApplication.BatchAppliesSimultaneously | src/editor/EditBatchOrder.h:12-55 | a batch without overlap, applied one edit at a time in the computed order at its original coordinates, gives the simultaneous result: inserts at a place in array order, ahead of a replacement starting there |
| EditApplication.FrontIsOriginal | src/editor/EditBatchOrder.h:16-18 | after each edit the text before it is still the original, so coordinates yet to be used stay right |
| EditApplication.MeetOverOffsets | src/editor/EditBatchOrder.h:57-84 | two ranges of a document meet exactly when they share a character or one is an insertion strictly inside the other, and meeting means sharing exactly when neither is |
| EditApplication.MeetingMayShareNothing | src/editor/EditBatchOrder.h:57-84 | an insertion inside a replaced word meets it without sharing a character |
| Breakpoints.ShiftIsLineOfMap | src/editor/BreakpointStore.cpp:361-396 | the shift of a line is the line part of mapping its column 0 through the edit |
| Breakpoints.ShiftIsMonotone | src/editor/BreakpointStore.cpp:381-406 | shifted lines keep their order, so the list is sorted before repetitions are dropped |
| Breakpoints.ShiftLaw | src/editor/BreakpointStore.cpp:354-410 | after a shift a line holds the first breakpoint that moved there, and the list is strictly sorted |
| Breakpoints.StepKeepsOrder | src/editor/BreakpointStore.cpp:75-431 | every operation keeps all lists sorted, and strictly sorted if they were, a replacement exactly when none of its lists repeats a line |
| Breakpoints.RunsKeepOrder | src/editor/BreakpointStore.cpp:75-431 | after any run of operations, replacements included, from an empty store every list is sorted |
| Breakpoints.RunsKeepOnePerLine | src/editor/BreakpointStore.cpp:75-431 | throughout a run from an empty store no file has two breakpoints on a line exactly when no list a replacement stores repeats a line |
| BreakpointLaws.StepIsSeen | src/editor/BreakpointStore.cpp:75-186 | an operation on a line changes what is seen on that line of that file as its name says, a new breakpoint being enabled and bare, and nothing anywhere else |
| BreakpointLaws.ClearedIsGone | src/editor/BreakpointStore.cpp:188-200 | clearing a file leaves nothing of it and all of the others; clearing leaves nothing |
| BreakpointLaws.EditCarriesSeen | src/editor/BreakpointStore.cpp:354-410 | after an edit a line shows the first breakpoint of the file whose line the edit carries there, or none; other files are left alone |
| BreakpointLaws.ReplacedIsSeen | src/editor/BreakpointStore.cpp:412-431 | after a replacement a line shows what the file's last non-empty list had first for it, without verification state |
| Breakpoints.StoreLaw | src/editor/BreakpointStore.cpp:95-110 | storing a breakpoint decides its line and leaves every other line alone |
| Breakpoints.EraseLaw | src/editor/BreakpointStore.cpp:171-186 | erasing takes one line away and leaves every other alone |
| Breakpoints.SearchFindsLine | src/editor/BreakpointStore.cpp:14-26 | on a sorted list the lower-bound search agrees with plain lookup |
| Breakpoints.ReplacedListOrder | src/editor/BreakpointStore.cpp:412-431 | a replaced list is sorted, and has one breakpoint per line exactly when its input had |
| Breakpoints.ReplacementOnePerLine | src/editor/BreakpointStore.cpp:412-431 | after a replacement every file has one breakpoint per line exactly when no list it stores repeats a line |
| Breakpoints.ReplacementMayRepeatLines | src/editor/BreakpointStore.cpp:412-431 | a file given the same line twice keeps both breakpoints |
| Breakpoints.BreakpointStore.Toggle | src/editor/BreakpointStore.cpp:75-93 | adds or removes on exactly that line and reports which; an emptied file is dropped |
| Breakpoints.BreakpointStore.Set | src/editor/BreakpointStore.cpp:95-110 | bumps the revision exactly when something changed |
| Breakpoints.BreakpointStore.SetOptionalField | src/editor/BreakpointStore.cpp:139-154 | clearing a field where there is no breakpoint creates none |
| Breakpoints.BreakpointStore.Remove | src/editor/BreakpointStore.cpp:171-186 | removes exactly that line if it is there |
| Breakpoints.BreakpointStore.ShiftForAppliedEdit | src/editor/BreakpointStore.cpp:354-410 | the loop, the stable sort and the deduplication store the specified list; true exactly when a line moved |
| Breakpoints.BreakpointStore.ReplaceAll | src/editor/BreakpointStore.cpp:412-431 | keeps for each file its last non-empty list, sorted and without verification state |
| Brackets.ForwardThenBackward | src/editor/BracketScanner.cpp:93-211 | a closer found from an unsuppressed opener leads back to that opener under the same line limit and byte budget |
| Brackets.BackwardThenForward | src/editor/BracketScanner.cpp:93-211 | an opener found from an unsuppressed closer leads forward to it exactly when their lines are less than the limit apart |
| BracketLaws.ForwardIff | src/editor/BracketScanner.cpp:93-137 | the forward scan finds a place exactly when the opener's nesting closes there first, on one of the lines allowed and within the byte budget |
| BracketLaws.BackwardIff | src/editor/BracketScanner.cpp:139-211 | likewise the backward scan, which reaches one line further |
| BracketLaws.CaretFindsItsBracket | src/editor/BracketScanner.cpp:213-258 | a caret gets the match of the bracket it stands before, else of the one it stands behind, else nothing, and is told which of the two it is at |
| Brackets.WindowIsEnough | src/editor/BracketScanner.cpp:273-316 | scanning the bounded window gives the same pair as scanning all lines |
| Brackets.MatchForwardFromOpener | src/editor/BracketScanner.cpp:93-137 | the loops compute the specified forward match |
| Brackets.MatchBackwardFromCloser | src/editor/BracketScanner.cpp:139-211 | the two loops under one budget compute the specified backward match |
| Brackets.FindBracketMatch | src/editor/BracketScanner.cpp:273-316 | the window is built and scanned; a caret line past the highlight limit matches nothing |
| Diagnostics.OrderIsTotal | src/editor/DiagnosticsStore.cpp:134-164 | the comparator is a total order, so the sort has one result |
| DiagnosticsLaws.ViewIsByPosition | src/editor/DiagnosticsStore.cpp:134-164 | a view is by where diagnostics start, then by where they end, and at one range the more severe come first |
| DiagnosticsLaws.CountIsNumber | src/editor/DiagnosticsStore.cpp:166-186 | a severity's counter is the number of diagnostics that have it |
| DiagnosticsLaws.EntryKeepsFirst | src/editor/DiagnosticsStore.cpp:279-338 | of an owner's list the first 10000 are kept whatever their severity, then sorted; the original count is remembered, and the list counts as truncated exactly when that is more |
| DiagnosticsLaws.MovingTransformsAll | src/editor/DiagnosticsStore.cpp:340-373 | moving a list transforms every range, drops nothing, sorts again and leaves the counts |
| Diagnostics.MergedIsUnique | src/editor/DiagnosticsStore.cpp:202-251 | the owners' lists determine the merged view of a path |
| Diagnostics.CapKeepsSeverestIff | src/editor/DiagnosticsStore.cpp:238-251 | the merged cap drops nothing that outranks what it keeps exactly when, in the sorted union of the owners' lists, no severity reaches beyond the cap while a milder one starts before it |
| Diagnostics.TwoOwnersLoseNothing | src/editor/DiagnosticsStore.cpp:238-251 | a path held by at most two owners loses nothing to the merged cap |
| Diagnostics.ViewTellsWhatWasDropped | src/editor/DiagnosticsStore.cpp:238-251 | from a view alone: nothing dropped outranks what is shown exactly when, for each severity shown, all that the summary counts of the severities above are shown |
| Diagnostics.CapMayDropSeverest | src/editor/DiagnosticsStore.cpp:238-251 | with two owners at their cap of hints the later error of a third is dropped |
| Diagnostics.MovedIsOwnerFile | src/editor/DiagnosticsStore.cpp:365-371 | moving ranges keeps the severity counts, so the stored summary stays right |
| Diagnostics.DiagnosticsStore.RebuildPath | src/editor/DiagnosticsStore.cpp:202-277 | the view of the path becomes the capped sorted union of the owners' lists, counters are the sums of the counts before capping, the truncated counter is exact, and the revision moves exactly when the view changed |
| Diagnostics.DiagnosticsStore.RemoveSummary | src/editor/DiagnosticsStore.cpp:195-200 | the saturating subtraction never saturates |
| Diagnostics.DiagnosticsStore.ReplaceForOwnerFile | src/editor/DiagnosticsStore.cpp:279-338 | stores the capped sorted list or drops the entry, keeps the whole index valid, and is true exactly when something changed |
| Diagnostics.DiagnosticsStore.TransformOwnerFile | src/editor/DiagnosticsStore.cpp:340-373 | moves every range of the one list and keeps the whole index valid |
| Diagnostics.DiagnosticsStore.Clear | src/editor/DiagnosticsStore.cpp:404-416 | empties owners, views and counters together |

## Left out

- The final call order of `std::sort` on equal elements: every sort is the stable one of `Sorting`; only the breakpoint
  replacement sorts equal keys with an unstable sort.
- The dynamic-programming tables are sequences of rows, not one flat vector; scratch buffers are not recycled, except the
  anchor pool by depth, the row slabs of the compare and presentation models and the swapped state buffers.
- The memo of hunk similarities: each cell is read once, so the model computes it where it is read.
- Review state: marking, unmarking, notes being set, pruning by recency and repository; `ResolveHunkMarkers` holds for any stored state.
- ReviewMarkers.BranchReviewStateService.ResolveHunkMarkers: the content hash and the diff fingerprint are uninterpreted numbers, so hash
  collisions are not part of this model.
- EditApplication.BatchAppliesSimultaneously: coordinates are positions the document has; the clamping each applier does first is not part of this model.
- Breakpoints: verification results from a debug adapter, snapshots; paths are opaque normalized keys.
- Diagnostics: clearing by owner, path prefixes, snapshots and severity filters; a path and its key are one string here.
- Brackets: tokenizing for suppression is a parameter; the cursor that caches a line's tokens is not modelled.
- DirtyRegions.AnalyzeDirtyRegions: starts from integer clips inside the surface, since the float conversion is not part of this model; the
  coverage is a real quotient.
- Presentation: summary strings, hunk headers and the inline span cache; a metadata line is a parameter.
- The merge result as one joined string, choice labels, and conversion of lines to owned strings.
- Profiling counters, clocks, hashes of interning tables, path normalization, signals, rendering and I/O.
