# Verification of the planning platform's hard logic

Dafny models of seven parts of the platform, with proofs about all their inputs, runs and reachable
states:

- **The plan compiler of the AI developer** (`Plans`, `StableSort`, `PlanCompiler`, `PlanTheorems`,
  `PlanMeaning`, `PlanWriters`): metrics whose formulas name each other are split into a placeholder and a later
  update, then the steps are put into the stable dependency order. `PlanCompiler` holds the loops;
  each is proved to compute the plan the specification names (`Plans.SplitPlan`, `Plans.Ordered`),
  and the theorems are about that plan.
- **The percent-unit checker** (`PercentFactor`): the power of 100 in a chain of × and ÷.
- **Workbook formula ranges** (`SheetFormulas`, `SheetReading`, `SheetScanner`, `SheetPatterns`,
  `SheetLookalikes`, `SheetTwins`, `SheetRanges`): the two reference scanners, character by character, R1C1 patterns and when
  they can be read back, and the grouping of formula cells into rectangles.
- **Conversation history** (`History`, `Compaction`): answering unanswered tool calls, and shortening
  older turns.
- **Audit export** (`AuditExport`): keyset paging while the table changes between pages.
- **The SCIM user directory** (`Scim`, `ScimOutcomes`, `ScimSafety`, `ScimFailures`, `ScimService`): application rows,
  role assignments and identity-provider accounts under user requests, and under failures of the calls
  they make.
- **Related dimensions** (`Dimensions`): the breadth-first closure over parent and source links.

`Graphs` (paths, closure, the pigeonhole argument for cycles), `Formulas` (the formula tree), `Text`
and `Basics` are shared. `dafny verify dfyconfig.toml` verifies everything.

The loops are proved against specification functions with definitions of their own (`Plans.Needs`,
`PercentFactor.ChainPower`, `Dimensions.AllLinks`). What a caller relies on is then stated over the stored
fields alone, without those definitions: in `WellShapedNamesFirst`, `DepsAre`, `MaximalChainsAre`,
`EveryCallIsAnswered`, `CompactIs`, `ExportIsExact`, the lemmas of `ScimOutcomes`, `FormulaIsPlain` and
`RelatedIs`.

## How the models read the code

- A plan step is its decoded parameters. `decodes` says the parameters are a JSON object, `typed` that
  they also have the field types `OrderByDependencies` asks for (otherwise the step is fixed, though
  the splitter may still split it), `positional` that their text contains "created in step". A formula
  parameter is its parse: blank, refused, or a tree. References are the identifiers outside keyword
  positions; names are compared trimmed and lower-cased, over ASCII letters. Parameter keys are taken in
  exact case, as `splitMetricCycles` reads them; the structs the other functions decode into would also
  accept "Name" for "name".
- Go's map iteration order is arbitrary: loops over maps pick elements in any order, and the fixpoint
  loop may or may not visit entries inserted while it ranges over them (`PlanCompiler.Absorb`).
- Byte strings are strings with one char per byte. `strconv.Atoi` saturates and
  `excelize.ColumnNameToNumber` gives -1 beyond column 16384, since the scanners drop their errors.
- Each audit page sees its own snapshot of the table; a run is the sequence of those snapshots.
- A SCIM request comes with a `World`: the keys the database and the identity provider generate, what
  they find, and which of their calls fail. The lookups of an address and of a subject fail open, as in
  the code: a database error reads as "nobody has it". The user table's own constraints are modelled: one
  row per subject, one per address compared letter for letter (migrations/002_identity.sql:15-16), and
  reserved addresses for stand-ins only (migrations/103_platform_stand_in.sql:15-16). `HeldElsewhere` and
  `PlatformReach` are fixed functions.
- A formula in a cell is compared with other cells through `Place`, a column and a row. A look-alike is
  text outside quotes that begins where a reference could begin, spells a reference in R1C1 that is on the
  sheet, and is not continued as a longer name.

## Where the code and its comments or expected laws differ

- What the comment above `createUser` says of failures (ee/scim/service.go:604-606) is not so: a role that
  cannot be inserted, or a row that cannot be read back, leaves both account and row
  (`ScimFailures.FailedCreationLeavesAccount`). `ScimSafety.FailedCreationKeepsAccountIff` gives the exact
  condition, and `ScimSafety.NoAccountWithoutRow` what does hold.
- While the lookup of a subject fails, a creation may write over the row of an account it does not own and
  make it the tenant's (`ScimFailures.AccountIsTakenOver`), and while the lookup of an address fails, two
  rows may end up with one address in different case (`ScimFailures.AddressSlipsIn`). The theorems about
  unowned accounts, their rows and addresses are therefore equivalences with exactly those requests.
- Ordering may swap two writes of one metric that disagree (`PlanMeaning.TwoWritersMaySwap`). It
  keeps the meaning of every plan whose writers agree (`PlanMeaning.MeaningPreserved`), and in general
  exactly when the step with the last word on each metric, told from the dependencies alone, agrees
  with its last writer (`PlanWriters.OrderKeepsMeaningIff`).
- Patterns are compared as text, and a look-alike has the pattern of the reference it spells
  (`SheetTwins.LookalikeIsNotACopy`). A formula's pattern stands for that formula alone, among formulas
  without look-alikes, exactly when it has none itself (`SheetTwins.PlainIffUnmistakable`).
- The heading printed over the ranges says a range shares its first cell's formula, moved with row and
  column. Runs that differ only in where their $ signs are become one range all the same
  (`SheetRanges.FirstMayNotReproduce`); the heading is right exactly for ranges whose columns have one
  pattern (`SheetRanges.FirstReproducesIff`).
- Compacting twice differs from compacting once exactly when an older note outgrows the limit and has
  another length than the arguments it replaced (`Compaction.CompactTwice`,
  `Compaction.LongNameCompactsTwice`).
- A percentage metric with an empty name, which `{}` would refer to, goes unreported
  (`PercentFactor.UnnamedGoesUnreported`).

## Model

| member | source | states |
|---|---|---|
| PlanCompiler.CollectMetrics | internal/aiassistant/plan_order.go:136-160 | the creator map holds, for every metric name with a parsable formula, the first step defining it; the metric set is exactly those steps |
| PlanCompiler.DirectReaches | internal/aiassistant/plan_order.go:161-170 | the direct reference relation is exactly "this formula names the metric that step defines", whatever order the map is walked in |
| PlanTheorems.FormulaGraphIs | internal/aiassistant/plan_order.go:136-170 | the graph of direct references over the formulas themselves: i refers to the trimmed, lower-cased name of another metric whose first definer is j |
| Text.KeyIsCore | internal/aiassistant/plan_order.go:136-156 | names are compared without the white space around them and without case: the character at each place |
| Formulas.RefsAreIdents | internal/aiassistant/plan_order.go:130-134 | a formula refers to a name iff an identifier of that name stands in its tree outside a keyword position |
| PlanCompiler.Absorb | internal/aiassistant/plan_order.go:175-179 | the innermost loop adds exactly what j reaches and reports a change iff something was new |
| PlanCompiler.AbsorbAll | internal/aiassistant/plan_order.go:174-181 | one pass over a metric's entries stays sound, grows the relation strictly if it reports a change, and leaves the metric closed if not |
| PlanCompiler.Saturate | internal/aiassistant/plan_order.go:171-182 | the fixpoint loop terminates with reaches[i][j] iff a nonempty path of direct references leads from i to j |
| PlanCompiler.SplitMetricCycles | internal/aiassistant/plan_order.go:130-199 | returns the split plan: placeholder and update for exactly the steps on a reference cycle, every other step unchanged and in place |
| PlanCompiler.EmitSplit | internal/aiassistant/plan_order.go:183-198 | the output loop emits the split plan step by step |
| Plans.SplitMeansMutual | internal/aiassistant/plan_order.go:161-189 | a step is split iff some other metric of the plan both reads it and is read by it |
| PlanCompiler.CollectCreators | internal/aiassistant/plan_order.go:30-58 | the creator map holds the first movable step creating each name |
| PlanCompiler.BuildDeps | internal/aiassistant/plan_order.go:68-89 | the dependency sets are exactly: creators of what a movable step names, the last fixed step before it, and everything before a fixed step |
| PlanTheorems.DepsAre | internal/aiassistant/plan_order.go:42-89 | over the parameters themselves: a step that may not move waits for everything before it; any other for the last such step before it and for the first movable creator of what it refers to in its formula, lists by name or id, or names as its metric or grid |
| PlanCompiler.ReadySteps | internal/aiassistant/plan_order.go:95-110 | the scan finds nothing iff nothing is ready, and otherwise its first entry is the earliest ready step |
| PlanCompiler.StableOrder | internal/aiassistant/plan_order.go:92-118 | Kahn's loop yields the sort's permutation, or the steps unchanged when the sort gives up |
| PlanCompiler.OrderByDependencies | internal/aiassistant/plan_order.go:22-119 | returns the ordered plan; in a well-shaped plan whatever a movable step names in its formula, its lists or as its metric or grid is created before it; a positional plan is returned untouched |
| StableSort.SortSound | internal/aiassistant/plan_order.go:92-118 | a finished sort is a permutation with every dependency first |
| StableSort.SortGivesUpIffCyclic | internal/aiassistant/plan_order.go:111-113 | the sort gives up iff the dependency relation has a cycle |
| StableSort.SortIsLeast | internal/aiassistant/plan_order.go:90-118 | among all dependency orders the sort returns the lexicographically least |
| StableSort.OvertakenOnlyWhenNeeded | internal/aiassistant/plan_order.go:18-21 | a step is overtaken by a later step j only if it needs, directly or through others, a step that stood at or after j |
| StableSort.OrderIsPairwise | internal/aiassistant/plan_order.go:90-118 | which of two steps comes first is told from those two and what they need alone (`Behind`), whatever else the plan holds |
| StableSort.SortKeepsOrdered | internal/aiassistant/plan_order.go:90-118 | steps whose dependencies all come before them keep their order |
| PlanTheorems.NoTagCycle | internal/aiassistant/plan_order.go:121-199 | once the steps on cycles are split, no cycle of formulas is left, in any arrangement |
| PlanTheorems.WellShapedNeverStuck | internal/aiassistant/plan_order.go:92-199 | for movable steps with distinct names, metrics depending only through formulas that name no grid, and grids naming only metrics, the sort never gets stuck, however mutually recursive the formulas are |
| PlanTheorems.WellShapedIsOrdered | internal/aiassistant/plan_order.go:11-119 | and in the returned plan every step comes after the creators of all it names |
| PlanTheorems.WellShapedNamesFirst | internal/aiassistant/plan_order.go:11-119 | the same over a step's own parameters: what it refers to in its formula, lists in metrics or metricIds, or has as metricId or gridId is created earlier |
| PlanTheorems.SortedNamesFirst | internal/aiassistant/plan_order.go:11-119 | so in every plan with distinct names whose sort finishes, well-shaped or not |
| PlanTheorems.FixedKeepsPlace | internal/aiassistant/plan_order.go:68-89 | a step the compiler may not move (foreign tool, or parameters that do not decode or have other types) keeps its absolute index |
| PlanTheorems.OrderedIsPermutation | internal/aiassistant/plan_order.go:68-118 | the returned plan is the split plan rearranged (same multiset), every step it may not move at its index |
| PlanTheorems.OrderedPlanUnchanged | internal/aiassistant/plan_order.go:18-21 | a plan already in dependency order is returned unchanged |
| PlanTheorems.OrderedIsIdempotent | internal/aiassistant/plan_order.go:22-119 | with distinct names, ordering twice is ordering once, whether the sort succeeded or gave up |
| PlanMeaning.FillFollowsPlaceholder | internal/aiassistant/plan_order.go:126-128 | the update of a split metric follows its placeholder, whether the sort succeeded or gave up |
| PlanMeaning.MeaningPreserved | internal/aiassistant/plan_order.go:22-119 | with distinct names and agreeing writers, the ordered plan leaves every metric with the formula the original gives it, from any starting model |
| PlanMeaning.LastFormulaKept | internal/aiassistant/plan_order.go:22-119 | the same told from the steps: the last step giving a metric a formula gives the same formula in the ordered plan as in the original |
| PlanWriters.SplitKeepsMeaning | internal/aiassistant/plan_order.go:183-198 | splitting keeps the meaning of every plan, with no condition on names or writers |
| PlanWriters.SortKeepsMeaningIff | internal/aiassistant/plan_order.go:84-118 | sorting keeps the meaning iff the step that lands behind all other writers of a metric agrees with its last writer |
| PlanWriters.OrderKeepsMeaningIff | internal/aiassistant/plan_order.go:22-119 | so does ordering, for every plan and every starting model: iff the plan is positional, its dependencies are cyclic, or the last words agree |
| PlanWriters.LastWordWaits | internal/aiassistant/plan_order.go:84-118 | an earlier writer gets the last word only by needing a step that stands at or after the last writer |
| PlanMeaning.StepSurvives | internal/aiassistant/plan_order.go:185-189 | a step that is not split is in the returned plan, unchanged |
| PlanMeaning.SplitStepSurvives | internal/aiassistant/plan_order.go:190-196 | of a split step the placeholder keeps every parameter but the formula, now 0, and an update step naming its metric, with no other parameter, carries the formula |
| PlanMeaning.TwoWritersMaySwap | internal/aiassistant/plan_order.go:84-118 | without agreeing writers it may not: a family of plans whose two updates of one metric land in the other order |
| Formulas.LiteralOnlyNamesNothing | internal/aiassistant/plan_lint.go:103-115 | a formula taken for a constant names nothing |
| Formulas.LiteralOnlyIffReadsNothing | internal/aiassistant/plan_lint.go:103-115 | a formula is taken for a constant iff no identifier, property or call stands anywhere in its tree |
| PlanCompiler.FilledLater | internal/aiassistant/plan_lint.go:398-424 | marks exactly the named create steps with a later update of that metric whose formula reads something; a constant formula marks nothing |
| PlanMeaning.FilledAtIs | internal/aiassistant/plan_lint.go:398-424 | the condition of the mark over the fields of the two steps |
| PlanMeaning.PlaceholdersAreFilledLater | internal/aiassistant/plan_lint.go:393-424 | every placeholder of the returned plan is marked |
| PlanMeaning.FilledLaterIsExactlyPlaceholders | internal/aiassistant/plan_lint.go:393-424 | and nothing else is, when the plan as written fills in no metric it creates |
| PercentFactor.ChainTally.Count | internal/aiassistant/plan_lint.go:247-283 | the accumulators grow by exactly the chain's numerator percentages, its power and what lies beyond it |
| PercentFactor.Walk | internal/aiassistant/plan_lint.go:284-317 | the walk reports what its specification reports; it terminates through the others list |
| PercentFactor.PercentFactorMisuse | internal/aiassistant/plan_lint.go:233-319 | nothing is reported for a refused formula; with named percentages something is reported iff somewhere a maximal chain multiplies by a percentage and its power is above the wanted one, which is one when the result is itself a percentage |
| PercentFactor.ReportIsFirstMisused | internal/aiassistant/plan_lint.go:284-318 | nothing is reported when no maximal chain is misused; otherwise the first percentage of the first misused one, outermost first, left to right, if it has a name |
| PercentFactor.ReportEmptyIffNoneMisused | internal/aiassistant/plan_lint.go:242-318 | for every set of percentages, nothing is reported iff no outermost misused chain has a name to report; with no nameless percentage, iff no maximal ×/÷ chain anywhere has a numerator percentage and a power above the wanted one |
| PercentFactor.MaximalChainsAre | internal/aiassistant/plan_lint.go:247-311 | the chains examined are exactly the parts of the tree that multiply or divide and are no operand of a part that does |
| PercentFactor.ChainPercentsAre | internal/aiassistant/plan_lint.go:247-283 | the percentages of a chain are exactly its percentage factors reached through × on either side and ÷ on an even number of right sides |
| PercentFactor.ReportedIffMisusedAnywhere | internal/aiassistant/plan_lint.go:233-319 | something is reported iff a misused chain stands anywhere in the tree, told by paths |
| PercentFactor.UnnamedGoesUnreported | internal/aiassistant/plan_lint.go:273-293 | a product with a nameless percentage is misused and not reported |
| PercentFactor.PowerIsExact | internal/aiassistant/plan_lint.go:226-283 | with nonzero divisors a chain's value, × multiplying, ÷ dividing and anything else a leaf, is 100^power times its value with percentages as fractions and 100 and 0.01 as 1, under both polarities |
| PercentFactor.MisuseIsHundredfold | internal/aiassistant/plan_lint.go:226-232 | a reported chain is, up to sign, at least 100 times what its result should hold |
| SheetFormulas.RelativeFormula | internal/aiassistant/document_xlsx.go:477-522 | the scanner writes exactly the R1C1 spelling of the formula's tokens |
| SheetFormulas.RefSkeleton | internal/aiassistant/document_xlsx.go:550-579 | the second scanner finds the same text and the same references as the first |
| SheetReading.FormulaIsRead | internal/aiassistant/document_xlsx.go:477-507 | skipping a longer name in one step finds the same tokens as reading character by character |
| SheetScanner.FormulaIsPlain | internal/aiassistant/document_xlsx.go:473-507 | the tokens told from the characters alone: a reference stands where up to three letters and digits, each with $ or not, stand outside quotes, with no name's character before and neither that nor an opening parenthesis after |
| SheetPatterns.SameRelativeIffCopied | internal/aiassistant/document_xlsx.go:473-522 | token by token, two cells read the same relative to themselves iff one is the other copied by their distance |
| SheetPatterns.CopyKeepsPattern | internal/aiassistant/document_xlsx.go:473-522 | a copied formula always has the same pattern |
| SheetPatterns.SpellInjective | internal/aiassistant/document_xlsx.go:509-519 | R1C1 spellings without look-alikes are read back uniquely |
| SheetPatterns.SamePatternIffCopied | internal/aiassistant/document_xlsx.go:473-522 | for formulas without look-alikes, two cells have equal pattern text iff one formula is the other copied: relative parts move with the cell, absolute parts and text stay |
| SheetTwins.LookalikeHasTwin | internal/aiassistant/document_xlsx.go:494-519 | every formula with a look-alike has a formula with the same pattern that is no copy of it, in every cell its references reach; in its own cell that one has no look-alike |
| SheetTwins.PlainIffUnmistakable | internal/aiassistant/document_xlsx.go:473-522 | a formula has no look-alike iff no other formula without one has its pattern in that cell |
| SheetTwins.NamesAreNoLookalikes | internal/aiassistant/document_xlsx.go:494-507 | a formula whose every R stands inside a name, as in YEAR2024, has no look-alike |
| SheetTwins.LookalikeIsNotACopy | internal/aiassistant/document_xlsx.go:494-519 | the name R1C1 has the pattern of $A$1 in every cell and is no copy of it |
| SheetRanges.SameAcross | internal/aiassistant/document_xlsx.go:530-543 | the loop decides agreement across columns |
| SheetRanges.AcrossIffCarried | internal/aiassistant/document_xlsx.go:524-543 | two formulas agree across iff token by token the text is the same and each reference keeps its row and its column or moves by the distance |
| SheetRanges.FindRuns | internal/aiassistant/document_xlsx.go:349-359 | the runs cut the cells into maximal stretches of consecutive rows of one column with one pattern |
| SheetRanges.JoinRun | internal/aiassistant/document_xlsx.go:361-374 | a run widens the first range it extends, or starts a range of its own |
| SheetRanges.MergeRuns | internal/aiassistant/document_xlsx.go:360-375 | the loop computes the merge of the runs |
| SheetRanges.MergeSeats | internal/aiassistant/document_xlsx.go:360-375 | in the merge every run sits in exactly one column of exactly one range of the same rows, neighbouring columns agreeing across |
| SheetRanges.MergeNoneJoins | internal/aiassistant/document_xlsx.go:332-375 | for runs in column order the merge leaves no two ranges that could still be joined |
| SheetRanges.GroupFormulas | internal/aiassistant/document_xlsx.go:332-375 | the ranges are pairwise disjoint, their union is exactly the cells, each column of a range is one vertical run of equal patterns, and no cell or range continues a range, down or across |
| SheetRanges.CopyingDownReproduces | internal/aiassistant/document_xlsx.go:335-382 | where a column of a range has no look-alikes, copying its first cell's formula down reproduces every cell of that column |
| SheetRanges.FirstReproducesIff | internal/aiassistant/document_xlsx.go:382-382 | the range's first formula, moved with row and column, gives the whole range iff the first cells of its columns have one pattern |
| SheetRanges.FirstMayNotReproduce | internal/aiassistant/document_xlsx.go:360-382 | C1:C2 reading A1 and A2 and D1:D2 reading $A$1 become one range its first formula does not give |
| History.MessagesToProviderHistory | internal/aiassistant/chat_store.go:354-387 | the loop with its pending calls computes the repaired history, in which the tool messages right after an assistant message answer every one of its calls |
| History.RepairIsWellFormed | internal/aiassistant/chat_store.go:350-387 | every assistant message's own calls are all answered, call for call, before the next message that is not a tool's |
| History.EveryCallIsAnswered | internal/aiassistant/chat_store.go:350-387 | the same over places: so many messages right after it are a tool's, and their ids cover the ids of its calls, each as often as it is called |
| History.GroupRepaired | internal/aiassistant/chat_store.go:354-387 | repair keeps a message and its stored answers and adds right after them, in the order of the calls, one message of a tool with the fixed text and the call's id and name for exactly the missing answers; what is before and after is repaired on its own |
| History.DeletingStandIns | internal/aiassistant/chat_store.go:354-387 | deleting the stand-ins gives back the stored messages in order |
| History.RepairIsIdempotent | internal/aiassistant/chat_store.go:354-387 | repairing twice is repairing once |
| Compaction.ClipRunes | internal/aiassistant/document_xlsx.go:127-135 | the loop cuts at the last rune start at or before the limit |
| Compaction.ClipKeepsRunes | internal/aiassistant/document_xlsx.go:127-135 | clipped text is still whole runes and at most three bytes short of the limit |
| Compaction.KeptIsLongest | internal/aiassistant/document_xlsx.go:127-135 | of valid text it is the longest start of whole runes within the limit |
| Compaction.CompactHistory | internal/aiassistant/chat_store.go:312-348 | the loops compute the compacted history: a tool result over 1500 bytes with two turns after it becomes its longest whole-rune start of up to 400 bytes and a note spelling its length, at most 1500 bytes and shorter; arguments over 1500 bytes become a note; nothing else changes |
| Compaction.CompactIs | internal/aiassistant/chat_store.go:312-348 | what compaction makes of each message, field by field |
| Compaction.BeforeCutIff | internal/aiassistant/chat_store.go:313-325 | it reaches exactly the messages that two of the developer's messages come after |
| Compaction.EscapeReadsBack | internal/aiassistant/chat_store.go:337-342 | the tool's name in the note is escaped so that a JSON reader reads it back |
| Compaction.CutKeepsTwoTurns | internal/aiassistant/chat_store.go:313-325 | the cut is where the last two turns start, and exists iff there are two |
| Compaction.CompactKeepsSkeleton | internal/aiassistant/chat_store.go:326-347 | length, roles, ids and names are kept, and everything from the last two turns on |
| Compaction.ResultShrinks | internal/aiassistant/chat_store.go:330-333 | a shortened result is strictly shorter and within the limit |
| Compaction.CallShrinksIff | internal/aiassistant/chat_store.go:337-342 | a call's arguments are shortened, and to within the limit, iff the tool's escaped name leaves room for the note |
| Compaction.CallShrinks | internal/aiassistant/chat_store.go:337-342 | it does for every name of at most 1427 escaped bytes |
| Compaction.CompactTwice | internal/aiassistant/chat_store.go:312-348 | compacting twice is compacting once iff every note in the older turns fits the limit or has the length of what it replaced |
| Compaction.LongNameCompactsTwice | internal/aiassistant/chat_store.go:334-343 | for a tool name of 1501 letters the note is longer than what it replaces, and compacting again changes it |
| Compaction.ShortNamesCompactOnce | internal/aiassistant/chat_store.go:312-348 | compaction is idempotent for tool names of up to 200 bytes |
| Compaction.RepairOfCompacted | internal/aiassistant/chat_store.go:312-387 | repairing the compacted history gives the same roles, ids and names, stand-ins included, as repairing the original |
| AuditExport.WriteRows | ee/auditexport/auditexport.go:186-211 | the row loop writes up to the limit and sets the cursor of the last written row iff one more row was there |
| AuditExport.Stream | ee/auditexport/auditexport.go:112-222 | one page writes the first matching events beyond the cursor, under one header exactly for CSV not told to leave it out, and refuses a bad cursor or format without writing |
| AuditExport.PageSize | ee/auditexport/auditexport.go:112-222 | a page holds as many events as are asked for (10000 by default, at most 100000) or all there are; it names a next page, at its last row, iff more were there |
| AuditExport.StreamAll | ee/auditexport/auditexport.go:227-238 | one header if it is CSV that is not told to leave it out, then the rows of page after page; the total is their number |
| AuditExport.PagesIncreasing | ee/auditexport/auditexport.go:140-163 | rows come out strictly increasing in (time, id), all beyond the first cursor |
| AuditExport.PagesComplete | ee/auditexport/auditexport.go:227-238 | a finished run has written every (time, id) at which a matching event was in all its snapshots, whatever its other columns held |
| AuditExport.ExportIsExact | ee/auditexport/auditexport.go:109-238 | under any inserts, deletes and changes between pages: increasing (time, id) order; only events in scope, from since to before until, of the category and type asked for, that were there; none twice; and each (time, id) there throughout exactly once |
| ScimService.Directory.CreateUser | ee/scim/service.go:611-700 | the handler does what the creation function says on every path; done, with a new subject, it leaves the row, role and account the input describes; it keeps addresses unique and unowned rows and accounts as they are unless it slips past a failed lookup, and leaves no account without a row |
| ScimService.Directory.UpdateUser | ee/scim/service.go:726-795 | the same for updates; done, an owned user has the row and account the input describes; at most their own user's row and account change |
| ScimService.Directory.DeleteUser | ee/scim/service.go:797-846 | the same for deletions; done, an owned user's row and roles are gone, and the account unless held elsewhere or its deletion failed; no remaining row changes |
| ScimOutcomes.OwnsIs | ee/scim/service.go:267-362 | whom the tenant owns, borrows and lists, over the stored fields: tenant, roles, stand-in mark, reach and who else holds the account |
| ScimOutcomes.UpdateDone | ee/scim/service.go:726-795 | what a successful update of an owned user leaves: trimmed, lower-cased address, the given name or the old one, external id, disabled iff not active; its account enabled as the input says if the state changed, with the new address and name if either did |
| ScimOutcomes.UpdateDoneIff | ee/scim/service.go:726-795 | when it succeeds: iff the address is a person's, nobody else has it, and no call fails |
| ScimOutcomes.BorrowedUpdateDone | ee/scim/service.go:733-760 | an update of a borrowed user succeeds only without a new address or name and changes external id and state of the row, no account |
| ScimOutcomes.UnownedUpdateDoneIff | ee/scim/service.go:726-760 | an update of a user the tenant does not own succeeds iff it asks for what is there already, or the user is borrowed, address and name stay and no call fails |
| ScimOutcomes.UpdateNeedsOwnership | ee/scim/service.go:726-795 | of any other user an update changes nothing |
| ScimOutcomes.DeleteDone | ee/scim/service.go:797-846 | a deletion of an owned user succeeds iff no database call fails, and removes the row, its roles, and the account unless made up, held elsewhere or the call fails |
| ScimOutcomes.BorrowedDeleteDone | ee/scim/service.go:797-846 | a borrowed user's row and roles go when nothing fails |
| ScimOutcomes.DeleteNeedsOwnership | ee/scim/service.go:797-846 | no account of a user the tenant does not own is deleted; of one it neither owns nor borrows at most roles in its workspaces go |
| ScimOutcomes.OthersLeaveIff | ee/scim/service.go:797-829 | of a listed user it neither owns nor borrows the roles in its workspaces go, and nothing else, iff it can remove members, the user is no platform account, and nothing fails |
| ScimOutcomes.CreateDone | ee/scim/service.go:611-700 | a successful creation with a new subject leaves row, default role and account, field by field |
| ScimOutcomes.CreateDoneIff | ee/scim/service.go:611-700 | when it succeeds: iff the address is a person's, nobody has it here or elsewhere, a user more is allowed, and no call fails |
| ScimOutcomes.OverwriteDone | ee/scim/service.go:660-680 | with a subject some row has, that row is written over: subject, stand-in mark and an existing tenant stay |
| ScimOutcomes.CreateRefuses | ee/scim/service.go:611-624 | an address that is no person's, or that somebody has, is refused and nothing changes |
| ScimSafety.CreateTouchesNothingElse | ee/scim/service.go:611-700 | with an identity provider, a creation that adopts no account with a row changes no existing row, no other user's roles, and no account with a row here or held elsewhere |
| ScimSafety.CreateKeepsRowsIff | ee/scim/service.go:644-680 | a creation keeps every existing row iff it does not write something else over the row of the account found, whose lookup failed |
| ScimSafety.AdoptionWrites | ee/scim/service.go:644-693 | exactly what a creation that adopts an account with a row changes |
| ScimSafety.UpdateTouches | ee/scim/service.go:726-795 | an update changes at most its own user's row and account; of a user the tenant does not own, only external id and disabled state |
| ScimSafety.DeleteTouches | ee/scim/service.go:797-846 | a deletion removes at most its own user's row, roles and account; no account of a user the tenant does not own |
| ScimSafety.UnownedIsNeverChangedIff | ee/scim/service.go:267-362 | in every run, the account of a user the tenant does not own is never updated, disabled, deleted or made the tenant's, even after its row is gone, iff no creation of the run takes hold of it past a failed subject lookup |
| ScimSafety.UnownedIsNeverChanged | ee/scim/service.go:267-362 | in particular in every run without such a failure |
| ScimSafety.UnownedRowKeepsIdentityIff | ee/scim/service.go:267-362 | in every run its row keeps subject, e-mail, display name and tenant while it is there iff no creation writes another identity over it past a failed subject lookup |
| ScimSafety.UnownedRowKeepsIdentity | ee/scim/service.go:267-362 | in particular in every run without such a failure |
| ScimSafety.HandleKeepsEmailsIff | ee/scim/service.go:618-621 | with or without an identity provider, every request keeps addresses unique ignoring case iff it does not slip one past a failed lookup (userName uniqueness, section 4.1.1 of RFC 7643) |
| ScimSafety.EmailsStayUniqueIff | ee/scim/service.go:767-779 | every run does iff none of its requests slips |
| ScimSafety.EmailsStayUnique | ee/scim/service.go:767-779 | in particular every run without a failed address lookup |
| ScimSafety.NoAccountWithoutRow | ee/scim/service.go:652-680 | when the compensating delete works, an account made by a creation is there afterwards iff its row is |
| ScimSafety.FailedCreationKeepsAccountIff | ee/scim/service.go:659-700 | a failed creation leaves its account iff the row was written and the role could not be, or the row not be read back |
| ScimFailures.AddressSlipsIn | ee/scim/service.go:618-621 | creating a@x beside A@x while the address lookup fails leaves two rows with one address |
| ScimFailures.AccountIsTakenOver | ee/scim/service.go:641-677 | creating a user while the subject lookup fails rewrites an unowned row and makes it the tenant's |
| ScimFailures.FailedCreationLeavesAccount | ee/scim/service.go:681-685 | a role that cannot be inserted leaves account and row of a failed creation |
| Dimensions.LoadLinks | internal/calculation/dimrecalc.go:119-135 | the table and adjacency lists hold exactly the rows and their parent and source links in both directions |
| Dimensions.AllLinksAre | internal/calculation/dimrecalc.go:119-135 | an edge is there iff the two differ and some row has one as its id and the other, not blank, as its parent or source |
| Dimensions.RelatedIs | internal/calculation/dimrecalc.go:106-156 | related means: another dimension of the model that a chain of such links leads to |
| Dimensions.Visit | internal/calculation/dimrecalc.go:145-154 | one turn keeps everything seen connected, lists each new model dimension once, and leaves the visited vertex explored |
| Dimensions.RelatedDimensions | internal/calculation/dimrecalc.go:106-156 | terminates and returns, each once, exactly the model's other dimensions a chain of rows' parent and source links leads to from the given one, links through ids outside the model included |
| Dimensions.RelatedSymmetric | internal/calculation/dimrecalc.go:129-134 | relatedness between model dimensions is symmetric |
| Dimensions.RelatedTransitive | internal/calculation/dimrecalc.go:139-155 | and transitive |

## Left out

- JSON decoding, the formula parser, regular-expression engine, base64 and time formatting, excelize and SQL: inputs are decoded values, and a cursor is its (time, id) pair. A formula text starting with two equals signs, which `FilledLater` and `ExtractRefs` read differently, has one parse here.
- Names beyond ASCII: lower-casing and trimming are modelled on ASCII only.
- Descriptions of plan steps and the wording of messages, except the notes compaction leaves, whose lengths matter.
- Compaction.CallShrinks: non-ASCII tool names are passed through unescaped; json.Marshal escapes two line-separator characters and replaces invalid UTF-8.
- Collecting the formula cells of a sheet and the two sorts around the grouping: the cells come sorted, and the printed order of ranges is not modelled.
- Column headers, row labels and layout of the sheet description: display heuristics.
- The other lints of a plan step, the time-window analysis of formulas and their evaluation.
- SCIM groups, PATCH decoding, filters and discovery documents: an update request carries any resolved input.
- Two SCIM requests at once: the handlers check and then act without a transaction.
- Creation without an identity provider as a "touches no other row" claim: the synthetic subject may hit an existing row; only e-mail uniqueness is stated there.
- Failures between the lookup of the user a SCIM request names and its handler, and what `RemoveFromTenant` leaves when it fails: the state is taken as unchanged.
- Audit retention settings and the sweep, and write errors of the export stream.
- Collecting the metrics to recompute after a dimension change, and the recalculation itself.
