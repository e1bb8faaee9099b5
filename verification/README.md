# OptiERP: verified models of six back-end components

A Dafny model of the parts of OptiERP whose correctness does not show in any single function
body, with proofs of what they promise. `dafny verify dfyconfig.toml` checks everything.

* **Bills of materials.** `BomCatalogue` (the graph of selected BOMs, reachability, cycles),
  `BomCycleCheck` (the worklist check), `BomRegister` (which BOM an item uses, and the
  operations in place), `BomEffects` (what each request stores, and what runs keep of it),
  `BomSelection` (what each operation does to the selection, and whole runs), `BomCycleRuns` (two runs that close a cycle), `RowOrder` and `BomExplosion` (the
  recursive explosion with its buckets), `BomMerging` (merging at every level), `BomOccurrences` (the
  returned rows and failures, told line by line from the BOMs alone), `BomTotals`
  (exact quantities, two-stage explosion, rounding), `BomStages` (two stages, rounded),
  `BomSafety` (when explosion raises), `BomScrap`.
* **Chart of accounts.** `Slugs` and `AccountTree`: parent links beside materialised paths.
* **Naming series.** `NamingSeries` (patterns, padded counters) and `NamingProtocol`
  (reservation by concurrent transactions).
* **Amounts in words.** `NumberWords` (the two digit-grouping loops), `NumberReading` (a reader
  and the round trip), `AmountWords` (the printed amount). `Texts` holds splitting, joining,
  stripping and search.
* **GST.** `GstRates` (HSN rates and their split over accounts), `RateDictionaries` (the per-item
  rates, which items of one tax template share), `ReverseChargeBalance`, `ReverseChargeCases`
  (documents on which it goes wrong), `TaxResolution` (from the lines to the rows and rates),
  `GstOutcome` (the outcome, told from registration numbers, account names and the HSN table).
* **Workflow and assets.** `WorkflowEngine`; `AssetReports`.

Code that updates things in place is modelled by classes and loops (`Buckets`, `Register`,
`ChartOfAccounts`, `Namer`, `Engine`, the shared `RateDict` objects, and the methods with `while`/`for` loops), each proved
against a specification function; the properties are lemmas about those functions. Database
lookups are lookups in finite maps and sequences; raised errors are `Result` values. Quantities
and rates are exact rationals (`real`), and only the explicit `quantize` calls round.

## What the proofs turned up

* **A cancellation can close a BOM cycle.** Submitting, creating and editing run the cycle
  check, but cancelling, (de)activating, setting an item's default pointer, and making a draft
  the default also change which BOM an item uses, unchecked.
  `BomCycleRuns.CancellingCanCloseACycle` is a run of seven accepted requests that ends in a
  cycle, and `BomSafety.ClosedCycleRaises` the error it later causes. What each request will
  select is told from the store before it (`BomSelection.SuccessorIsNext`), and with that the
  exact condition: `BomSelection.StepAcyclicIff` for one request, `BomSelection.RunAcyclicIff`
  for whole runs, `BomSelection.CancelAcyclicIff` for cancelling in terms of the code's own
  check with the cancelled BOM excluded.
* **A submission that passes the check can close one too.** The item form lets an item point at
  a BOM of another item; the check asks for the BOM's own item only
  (`BomCycleRuns.StrayPointerClosesACycle`, `BomSafety.StrayPointerRaises`). The check is enough
  exactly when it would also pass for every other item that points at the document
  (`BomSelection.SubmitAcyclicIff`).
* **Names pass where slugs clash.** The duplicate check compares account names, paths are made
  of slugs. `AccountTree.TwinsTorn` creates "A B" and "A-B" side by side and renames one.
  `AccountTree.EditSoundIff` gives the exact condition: the path that an edit assigns is free.
* **Reverse charge can leave one hundredth.** The docstring of `reverse_charge_tax_rows` says
  that the two sides net to zero. The line rates and exact amounts do, but each row is rounded
  on its own: `ReverseChargeBalance.PayableNeutralIff` shows that a within-state document is
  neutral exactly when the rounded credit is an even number of hundredths, and
  `ReverseChargeCases.OneHundredthLeft` is a document that is not. The code is followed.
* **Reverse charge needs the credit account apart** from the two liability halves, unless no line
  ends up taxed, exactly (`ReverseChargeBalance.ReverseChargeNeutralIff`); the halves may
  coincide. Account names that never hold both sides keep them apart
  (`ReverseChargeBalance.NamesKeepHeadsApart`); with an account named "Input GST CGST" they are
  not (`ReverseChargeCases.SharedHeadUnbalances`).
* **Reverse charge overwrites the rates of other items.** Items of one tax template get the same
  dictionary object, and reverse charge updates it in place for each of them, so the last one
  written decides for all (`RateDictionaries.MergedIsLast`): the item whose first line comes last, at
  the rate of its own last line (`GstOutcome.LineTakesRateOf`). Two items of one template at 18% and
  12% are both taxed at 12% (`ReverseChargeCases.TemplateTakesLastRate`), and an exempt item takes
  the tax of a taxable one away (`ReverseChargeCases.ExemptItemUntaxesTemplate`). Every line keeps
  its own rate exactly when lines of one item agree and so do those of one template
  (`ReverseChargeBalance.OwnRatesIff`). Derived GST never writes to a shared dictionary
  (`RateDictionaries.AutoMerged`).
* **A free-text line without a code is taxed.** The docstring of `_line_treatment` says that it is
  left untaxed, but the engine falls back to the header rate: it is untaxed exactly when the
  header rate is 0 (`RateDictionaries.FreeTextUntaxedIff`), under reverse charge exactly when two
  positive rates differ (`ReverseChargeBalance.FreeTextUntaxedIffMixed`).
  `ReverseChargeCases.UncodedLineIsTaxed` is a document where it is taxed at 18%.
* **A line can be taxed at another line's rate.** Rates are kept by item, so two lines of one
  item with HSN codes of their own share the last rate (`GstRates.FirstLineTakesSecondRate`).
  Every line without a template gets its own rate exactly when such lines of one item agree (`GstRates.OwnRatesIff`,
  `TaxResolution.DerivedOwnRatesIff`).
* **A merged row keeps the first rate it meets.** The value gained or lost is the sum of
  quantity times first rate less own rate, and value is conserved exactly when these differences
  cancel (`BomMerging.MergedValue`). Agreement of the rates suffices, and is needed when no later
  rate lies below the first, or none above it (`BomMerging.ValueConservedIff`). Both sides of the
  line are shown: `BomMerging.ValueCanBeLost` and `BomMerging.DisagreementCanCancel`.
* **Names are unique within a series only.** Two series can produce one name exactly when the
  prefix of one is that of the other followed by digits only (`NamingSeries.SeriesClashIff`);
  `NamingSeries.SeriesCanCollide` is a pair of patterns that do.
* **A nameless workflow state breaks the log chain**, and nothing else does. For documents that
  begin without a state, a definition makes every run replay exactly when no route of transitions
  that users can take leads from its initial state to a nameless one
  (`WorkflowEngine.AlwaysReplaysIff`); wherever documents stand at first, exactly when no such
  transition exists at all (`WorkflowEngine.AnyStoreReplaysIff`).
  `WorkflowEngine.BlankStateBreaksLog` is a run of two requests whose log does not replay. The
  definition form accepts empty names.
* **A tiny negative amount prints "Minus ... Zero"**, unlike zero, exactly between minus half a
  hundredth and zero (`AmountWords.MinusZeroIff`); nothing else that is equal once rounded
  prints differently (`AmountWords.PrintAlikeIff`).

## Model

| member | source | states |
|---|---|---|
| BomCycleCheck.AssertNoBomCycle | backend/app/services/bom_explosion.py:110-129 | On every finite catalogue, cyclic or not, the worklist ends, and it reports a cycle if and only if the finished good is reached from some component in zero or more steps through selected BOMs |
| BomCycleCheck.Exhausted | backend/app/services/bom_explosion.py:112-129 | When the stack runs empty, nothing reachable has been missed |
| BomCatalogue.ChangeAcyclicIff | backend/app/services/bom_explosion.py:105-129 | Giving any set of items other BOMs, or none, keeps an acyclic selection acyclic if and only if none of them is led back to by a component of its new BOM |
| BomCatalogue.SpreadAcyclicIff | backend/app/services/bom_explosion.py:105-129 | When they all get the same BOM, the walk under the old selection decides |
| BomCatalogue.ReselectAcyclicIff | backend/app/services/bom_explosion.py:105-109 | Giving one item another BOM keeps an acyclic selection acyclic if and only if no component of the new BOM leads back to the item under the old selection, which is what the check asks |
| BomCatalogue.OneItemChangeAcyclicIff | backend/app/services/bom_explosion.py:97-129 | The same for any change to one item, including losing its BOM |
| BomRegister.FindItemBom | backend/app/services/bom_explosion.py:64-94 | The BOM that the pointer leads to if it is usable and not excluded, whatever it makes; else the best usable one of the item, defaults before others and newer before older; none only if there is none |
| BomRegister.SelectionIsWellFormed | backend/app/services/bom_explosion.py:64-94 | If default pointers lead to BOMs of their own item, every selected BOM makes the item it is selected for |
| BomRegister.Register.ClearOtherDefaults | backend/app/services/bom.py:235-256 | The named BOM becomes the only default of its item and the item points at it; nothing else changes |
| BomRegister.Register.SyncItemDefault | backend/app/services/bom.py:259-269 | The item points at the BOM if it is a usable default, and no longer points at it otherwise |
| BomRegister.Register.Create | backend/app/services/bom.py:315-376 | A draft is added unless its components lead back to its item; a refusal changes nothing |
| BomRegister.Register.Edit | backend/app/services/bom.py:379-451 | Only a draft is edited; new lines pass the check with the draft excluded; the default flag clears the others; a refusal changes nothing |
| BomRegister.Register.Point | backend/app/services/stock_masters.py:192-238 | The item form sets or clears the default pointer, to any stored BOM |
| BomRegister.Register.Submit | backend/app/services/bom.py:540-563 | Each refusal in the order of the checks, or the submission with its effect on defaults |
| BomRegister.Register.Cancel | backend/app/services/bom.py:566-591 | Refused unless submitted and unused; otherwise cancelled, inactive, no longer default |
| BomRegister.Register.SetActive | backend/app/services/bom.py:594-605 | Toggles a submitted BOM, which loses its default flag when switched off |
| BomEffects.CreationEffect | backend/app/services/bom.py:337-371 | The document stored is a draft of the requested BOM; a default one clears the other flags of its item and is pointed at |
| BomEffects.EditionEffect | backend/app/services/bom.py:388-442 | After an edit each of lines, scrap, batch, phantom and default flag is the requested one where one was given, and the former one where not; no other document changes beyond its default flag |
| BomEffects.EditRefusals | backend/app/services/bom.py:381-410 | An edit is refused for a cycle if and only if it gives lines and the item of one of them leads back to what the document makes, the document left out of the walk; and exactly when for the other two reasons |
| BomEffects.SubmissionEffect | backend/app/services/bom.py:551-555 | The draft is submitted and active; a default one clears the other flags and is pointed at, any other is no longer pointed at |
| BomEffects.CancellationEffect | backend/app/services/bom.py:581-584 | The document is cancelled, inactive, no default and not pointed at; nothing else changes |
| BomEffects.ActivationEffect | backend/app/services/bom.py:598-601 | The toggle, the default flag that goes with switching off, and the pointer |
| BomEffects.PointingEffect | backend/app/services/stock_masters.py:192-238 | Only the pointer of the item changes, to the BOM given or to none |
| BomEffects.OtherRefusals | backend/app/services/bom.py:541-580 | Each reason for refusing a submission, a cancellation or a pointer, exactly |
| BomEffects.EditIsUsed | backend/app/services/bom.py:379-563 | After an edit, any requests that do not edit the draft again, and an accepted submission of it as a default, its item uses the BOM with the requested parts |
| BomEffects.CreationIsUsed | backend/app/services/bom.py:315-563 | The same from a creation: the item comes to use exactly the BOM requested |
| BomEffects.RunKeepsBom | backend/app/services/bom.py:315-605 | Over every run a document's BOM changes by edits of it only |
| BomEffects.RunOrderly | backend/app/models/manufacturing.py:145-146 | Over every run at most one default per item; defaults are active, cancelled documents are neither |
| BomSelection.SuccessorIsNext | backend/app/services/bom_explosion.py:64-94 | The BOM that any item will use after any request, accepted or refused, is told from the store before it |
| BomSelection.StepAcyclicIff | backend/app/services/bom.py:235-605 | One request of any kind keeps the selection acyclic if and only if no item that it gives another BOM is led back to by a component of that BOM, asked before the request and in every store |
| BomSelection.SubjectGuardIff | backend/app/services/bom.py:235-605 | For creating, editing and pointing, and for all requests where pointers lead to BOMs of their own items, that question is one walk through the present selection to the request's own item |
| BomSelection.CancelAcyclicIff | backend/app/services/bom.py:566-591 | A cancellation keeps the selection acyclic if and only if the check, excluding the BOM, accepts what each of its present users falls back to |
| BomSelection.DraftNotSelected | backend/app/services/bom.py:544-550 | Excluding the draft being submitted does not change what the cycle check walks |
| BomSelection.SubmitAcyclicIff | backend/app/services/bom.py:540-563 | A submission that is not refused keeps the selection acyclic if and only if the check would also pass for every other item that points at the document |
| BomSelection.SubmitKeepsAcyclic | backend/app/services/bom.py:540-563 | Where no other item points at the document, the check is enough |
| BomSelection.ActivateAcyclicIff | backend/app/services/bom.py:594-605 | Activating an inactive BOM keeps the selection acyclic if and only if the check would pass for every item that points at it and, where it comes to use it, for its own item; activating an active one, if and only if the check would accept what its own item then uses |
| BomSelection.RunAcyclicIff | backend/app/services/bom.py:315-605 | Over every run of creations, edits, submissions, cancellations, toggles and settings of pointers, from every store: acyclic throughout if and only if each request met its condition beforehand |
| BomSelection.RunLinked | backend/app/services/bom.py:235-605 | Only the item form can make a pointer lead to a BOM of another item |
| BomCycleRuns.CancellingCanCloseACycle | backend/app/services/bom.py:566-591 | A run of accepted requests from the empty register whose final cancellation makes the selection cyclic |
| BomCycleRuns.StrayPointerClosesACycle | backend/app/services/bom.py:544-550 | Three accepted requests after which an item uses a BOM that contains it, although the submission passed the check |
| BomExplosion.Buckets.Add | backend/app/services/bom_explosion.py:162-180 | A row of a new key goes last, a row of a known key is merged in place; keys stay distinct |
| BomExplosion.ExplodeBom | backend/app/services/bom_explosion.py:132-220 | The in-place recursion returns what the specification function gives, on every catalogue and with the first error met, and terminates |
| BomExplosion.ExplodeLineInto | backend/app/services/bom_explosion.py:182-218 | One turn of the loop adds exactly the rows of one component line, or reports its failure |
| RowOrder.SortRows | backend/app/services/bom_explosion.py:220 | The result is a permutation of the buckets |
| RowOrder.SortRowsSorted | backend/app/services/bom_explosion.py:220 | The result is ordered by level, then code, then item |
| RowOrder.RowLeMeans | backend/app/services/bom_explosion.py:220 | The order is: lower level first, then the code that is smaller at the first difference, then the identifier |
| RowOrder.SortRowsStable | backend/app/services/bom_explosion.py:220 | Rows that compare equal keep the sequence in which they were merged |
| BomMerging.MergedSummaries | backend/app/services/bom_explosion.py:161-220 | Merging at every level gives, for every key, what folding the unmerged leaves of the whole tree once would give |
| BomMerging.MergingLosesNothing | backend/app/services/bom_explosion.py:161-220 | Exactly one line per key that occurs, carrying the sum of all occurrences, their least level and the first rate, sorted |
| BomOccurrences.RowsAccountForLines | backend/app/services/bom_explosion.py:132-220 | Over the trails of component lines that lead through opened BOMs to an emitted line: there is one row per item, warehouse and alternative flag that a trail arrives at, with the sum of what its arrivals ask for, the least number of BOMs opened on the way, the first code, and the rate of the first arrival, which is the unit cost of the item's own BOM for a stocked sub-assembly with a positive cost and the line's own rate otherwise; rows are in order |
| BomOccurrences.RaisedIff | backend/app/services/bom_explosion.py:147-159 | An explosion raises exactly the fault that a trail meets first, depth first: an empty batch, or a good that is being made already |
| BomMerging.WeightConserved | backend/app/services/bom_explosion.py:161-220 | Every total weighted by key is the same over the result and over the leaves |
| BomMerging.MergedValue | backend/app/services/bom_explosion.py:164-180 | The result values each leaf at the first rate of its key; the value it gains or loses is the sum of quantity times first rate less own rate, and is none if and only if these cancel |
| BomMerging.ValueConservedIff | backend/app/services/bom_explosion.py:164-180 | Where no rate lies below the first of its key, or none above it, value is conserved if and only if the rates of each key agree |
| BomMerging.ValueCanBeLost | backend/app/services/bom_explosion.py:174 | Two lines of one key at the rates 1 and 3, rounded as the code does, lose half their value |
| BomMerging.DisagreementCanCancel | backend/app/services/bom_explosion.py:174 | Three lines at the rates 1, 0 and 2 keep theirs |
| BomTotals.ExactTotals | backend/app/services/bom_explosion.py:159-200 | In exact arithmetic the leaves for a quantity are that quantity times the requirement of one unit |
| BomTotals.OnlyClosedItems | backend/app/services/bom_explosion.py:143-145 | Without flattening no phantom is emitted, with it nothing that has a BOM; all quantities are positive |
| BomTotals.TwoStagesEqualFull | backend/app/services/bom_explosion.py:132-220 | Whenever the full explosion succeeds, exploding phantoms first and flattening every line that has a BOM afterwards succeeds and gives the same weighted totals, hence the same total per key |
| BomStages.RoundedTwoStages | backend/app/services/bom_explosion.py:132-220 | As the code rounds, at every order size, the two stages stay within the bound of the full explosion of the exact requirement, merging in between included |
| BomStages.RoundedStagesAgree | backend/app/services/bom_explosion.py:132-220 | So the rounded two-stage and full explosions differ by at most a micro-unit times that factor of the BOM tree |
| BomTotals.WalkableSucceeds | backend/app/services/bom_explosion.py:147-157 | If no walk repeats a finished good or meets an empty batch, every quantity explodes without error, rounded or not |
| BomTotals.RoundedLeaves | backend/app/services/bom_explosion.py:183-185 | Rounding to six places and dropping vanished needs moves the leaves by at most half a micro-unit times a factor of the BOM tree |
| BomTotals.RoundingBound | backend/app/services/bom_explosion.py:183-200 | The same bound holds for the returned rows against the exact ones, for every order size |
| BomSafety.SuccessIffCleanChains | backend/app/services/bom_explosion.py:149-158 | An explosion returns if and only if no chain of BOMs that it opens repeats a finished good and all batches on such chains are positive |
| BomSafety.NeverRaisesIff | backend/app/services/bom_explosion.py:149-200 | With the positive batches and lines that the request schema demands, a BOM explodes without error for every quantity, in full or through phantoms only, if and only if no walk of that kind from it meets one good twice, on every catalogue |
| BomSafety.TidyNeverRaises | backend/app/services/bom_explosion.py:149-158 | That no walk repeats a good suffices whatever the lines, rounded or not |
| BomSafety.GuardedRunNeverRaises | backend/app/services/bom_explosion.py:152-158 | No selected BOM raises after a run from the empty register whose requests met their conditions and whose pointers stay with their own items |
| BomSafety.ClosedCycleRaises | backend/app/services/bom_explosion.py:153-157 | After the cancellation that closes a cycle the explosion raises its cycle error |
| BomSafety.StrayPointerRaises | backend/app/services/bom_explosion.py:153-157 | After the submission that closes one through a stray pointer it does too |
| BomScrap.ExplodeScrap | backend/app/services/bom_explosion.py:223-245 | One row per scrap line whose rounded quantity is positive, none for an empty order or batch |
| BomScrap.ScrapLinesPosted | backend/app/services/bom_explosion.py:230-244 | The rows are those of the lines with a positive rounded quantity, in sequence, each with its line's item, rate and warehouse |
| BomScrap.ScrapWithinRounding | backend/app/services/bom_explosion.py:229-234 | Scrap posted of an item is within half a micro-unit per line of the scaled batch scrap |
| Rounding.QuantiseMicro | backend/app/services/bom_explosion.py:183 | Rounding to six places gives a whole number of micro-units, an even one on a tie, off by at most half of one, and keeps the sign |
| Slugs.SlugIsLabel | backend/app/services/accounts_masters.py:38-40 | A slug is never empty and never holds a dot |
| Slugs.LabelIsItsSlug | backend/app/services/accounts_masters.py:38-40 | Slugs are fixed points, so slugging twice changes nothing |
| Slugs.SlugJoinsWords | backend/app/services/accounts_masters.py:38-40 | Whatever the case of its letters, a text of words with gaps between and margins around becomes its words joined by one underscore each |
| Slugs.EveryTextIsMade | backend/app/services/accounts_masters.py:38-40 | Every text with a letter or digit is such a text |
| Slugs.SlugOfMargin | backend/app/services/accounts_masters.py:38-40 | A text without any becomes "node" |
| AccountTree.PrefixIffDescends | backend/app/services/accounts_masters.py:126-131 | If no other account shares its path, a path starts with the account's path and a dot if and only if its account is a strict descendant by parent links |
| AccountTree.UniqueIffSiblingsDistinct | backend/app/services/accounts_masters.py:96 | Under consistent paths, paths are unique exactly when siblings have distinct slugs |
| AccountTree.ChartOfAccounts.Create | backend/app/services/accounts_masters.py:65-107 | Exactly which refusal, for a missing parent, a parent that is no group or a sibling's name; otherwise added below its parent's path |
| AccountTree.ChartOfAccounts.RenamePath | backend/app/services/accounts_masters.py:110-131 | The loop rewrites exactly the paths equal to the old one or below it |
| AccountTree.ChartOfAccounts.Rename | backend/app/services/accounts_masters.py:140-156 | Exactly which refusal, for an unknown account or a sibling's name; otherwise paths and name change together |
| AccountTree.RenameConsistentIff | backend/app/services/accounts_masters.py:110-131 | A rename leaves every path equal to parent path, dot, own slug if and only if the path stays or nobody shared the old one |
| AccountTree.RenameTouchesOnlySubtree | backend/app/services/accounts_masters.py:126-131 | Accounts outside the subtree keep their paths, descendants swap exactly the prefix |
| AccountTree.RenameKeepsDescent | backend/app/services/accounts_masters.py:110-131 | Who descends from whom does not change |
| AccountTree.RenameUniqueIff | backend/app/services/accounts_masters.py:110-131 | A rename to a new path keeps paths unique if and only if that path was free |
| AccountTree.CreateSoundIff | backend/app/services/accounts_masters.py:72-98 | Creation keeps paths consistent, and unique if and only if the assigned path was free |
| AccountTree.EditSoundIff | backend/app/services/accounts_masters.py:144-156 | One accepted edit keeps the chart sound if and only if the path it assigns is fresh |
| AccountTree.RunSoundIff | backend/app/services/accounts_masters.py:65-156 | Over every run the chart stays sound throughout if and only if every edit assigned a fresh path |
| AccountTree.TwinsTorn | backend/app/services/accounts_masters.py:145-156 | "A B" and "A-B" are accepted as siblings, share a path, and renaming one breaks the chart |
| NamingSeries.ExpandSeries | backend/app/core/naming.py:32-48 | Date tokens are replaced, literals kept, hash runs dropped; the last hash run sets the width, five by default |
| Texts.JoinSplit | backend/app/core/naming.py:41 | Splitting a pattern at its dots loses nothing |
| NamingSeries.PrefixIsParts | backend/app/core/naming.py:32-48 | The prefix is what the parts stand for: a part of the date for each token, nothing for hashes, themselves for literals |
| NamingSeries.WidthIsLastRun | backend/app/core/naming.py:39-47 | The width is the length of the last run of hashes, and five without one |
| NamingSeries.DocumentedPatterns | backend/tests/unit/test_naming.py:8-32 | What the documented patterns expand to, for any date |
| NamingSeries.HashesLeaveNoTrace | backend/app/core/naming.py:41-48 | Hash runs never reach the prefix |
| NamingSeries.WidthsNeverCollide | backend/app/core/naming.py:51-52 | With one prefix, equal names carry equal numbers whatever the widths |
| NamingSeries.PatternsShareWithoutClash | backend/app/core/naming.py:32-84 | Patterns that differ in hash runs only share a prefix, and distinct numbers never clash |
| NamingSeries.SeriesClashIff | backend/app/core/naming.py:51-52 | Two different prefixes can give one name, for some numbers and widths, if and only if one is the other followed by digits only |
| NamingSeries.SeriesCanCollide | backend/app/core/naming.py:32-52 | The eleventh name of the pattern "X.#" is the first of "X1.#" |
| NamingSeries.Namer.GetNextName | backend/app/core/naming.py:55-84 | The counter of the expanded prefix and company, and no other, goes up by one and gives the name |
| NamingSeries.Namer.PeekNextName | backend/app/core/naming.py:87-100 | The preview shows the counter plus one and changes nothing |
| NamingSeries.PeekThenGet | backend/app/core/naming.py:87-100 | A preview is what the next call returns when nothing intervenes |
| NamingProtocol.GapFree | backend/app/core/naming.py:62-82 | Over every interleaving of reservations, commits and aborts, committed numbers of a series are 1 to its counter, each once, and the open holder's follow on |
| NamingProtocol.NamesUnique | backend/app/core/naming.py:10-12 | No two committed grants of a series ever carry the same name, whatever the widths |
| NamingProtocol.OpenReservationsExclusive | backend/app/core/naming.py:62-67 | While a transaction holds uncommitted numbers of a series, no other does, and none of them is already committed |
| NamingProtocol.PeekIsNext | backend/app/core/naming.py:87-100 | What was previewed is what the reservation obtains, however many undisturbing transactions ran meanwhile |
| NamingProtocol.EndFreesRow | backend/app/core/naming.py:65-67 | Whoever waits for a counter row obtains, once its holder ends, the number after the holder's last one, or after an abort the first that was given back |
| NumberWords.UnderThousand | backend/app/core/num2words.py:33-46 | The text built is the words of the number joined by blanks |
| NumberWords.IntWordsInternational | backend/app/core/num2words.py:49-61 | The loop over thousands yields the international words, most significant group first |
| NumberWords.IntWordsIndian | backend/app/core/num2words.py:64-81 | The loop over pairs yields the Indian words, stripping included |
| NumberReading.ReadInternational | backend/app/core/num2words.py:49-61 | Reading the international words of any number gives it modulo 10^15 |
| NumberReading.ReadIndian | backend/app/core/num2words.py:64-81 | Reading the Indian words of any number gives it modulo 10^13 |
| NumberReading.WordsRoundTrip | backend/app/core/num2words.py:49-81 | Each rendering reads back exactly below its bound and never at or beyond it; below 10^13 the two denote the same number |
| NumberWords.SpelledHighTeens | backend/app/core/num2words.py:53 | A number with all five international groups, spelled out |
| NumberWords.SpelledTens | backend/app/core/num2words.py:70 | A number with all five Indian units, spelled out |
| NumberWords.SpelledBelowSixty | backend/app/core/num2words.py:12-17 | Numbers with the words of the tables, spelled out |
| NumberWords.SpelledAboveSixty | backend/app/core/num2words.py:12-17 | The same for the rest of the tables |
| AmountWords.AmountInWords | backend/app/core/num2words.py:84-100 | The text built for any currency, and for listed ones that it is the words joined by blanks |
| AmountWords.CurrencyNames | backend/app/core/num2words.py:20-31 | Which names each listed code has, whatever its case, and that an unlisted one stands for itself |
| AmountWords.UnlistedText | backend/app/core/num2words.py:91-100 | Without a minor name the text is the code, the words and, if not zero, the words of the hundredths |
| AmountWords.SignedCentsAreNearest | backend/app/core/num2words.py:88 | Amounts are rounded to the nearest hundredth, ties away from zero |
| AmountWords.AmountRoundTrip | backend/app/core/num2words.py:84-100 | For listed currencies and amounts in range the text reads back as the signed amount rounded half up to hundredths |
| AmountWords.PrintAlikeIff | backend/app/core/num2words.py:84-100 | Amounts in range print alike in a listed currency if and only if they are equal once rounded and, where that is zero, both or neither were negative |
| AmountWords.MinusZeroIff | backend/app/core/num2words.py:87-88 | In every currency, an amount that rounds to zero prints unlike zero if and only if it lies strictly between minus half a hundredth and zero |
| GstRates.HsnRates | backend/app/services/accounts_common.py:118-139 | Exactly the requested codes that occur get a rate, that of the most frequent group, the higher one on a tie |
| GstRates.HsnRatesIgnoreOrder | backend/app/services/accounts_common.py:133-139 | The rates do not depend on the order of the groups |
| GstRates.CollectTotals | backend/app/services/accounts_common.py:214-244 | The loop yields the rate per line key, and whether a template line was met |
| GstRates.TotalsAreLast | backend/app/services/accounts_common.py:232-244 | A key carries the rate of its last rated line |
| GstRates.ComputeRowRate | backend/app/services/accounts_common.py:286-295 | The header rate is the one positive rate all lines share, and 0 otherwise |
| GstRates.FindAccount | backend/app/services/accounts_common.py:250-256 | An account whose name holds all the parts, case aside; none only if no account does |
| GstRates.AutoGst | backend/app/services/accounts_common.py:168-301 | When rows result, and which overrides and rows they are, from the lines, the HSN table, both sides' registration numbers, the place of supply and the tax accounts |
| GstRates.ReverseCharge | backend/app/services/accounts_common.py:304-418 | The same for reverse charge |
| GstOutcome.InterstateIff | backend/app/services/accounts_common.py:221-226 | A supply is between states if and only if the company's 15-character number begins with the digits of a state and the party's, or only without such a number the place of supply, with those of another |
| GstOutcome.PartyNumberPrevails | backend/app/services/accounts_common.py:222-226 | With two valid numbers their digits decide, whatever the place |
| GstOutcome.AutoOutcome | backend/app/services/accounts_common.py:249-301 | From the numbers and account names: CGST and SGST at half each within a state, IGST at the whole rate between states, the input account on purchases, output accounts named so first, nothing deducted; no rows from missing accounts exactly when one is missing |
| GstOutcome.ReverseOutcome | backend/app/services/accounts_common.py:364-418 | The input account is added at the whole rate, the output accounts are deducted, IGST between states, CGST and SGST at half within one |
| GstOutcome.RateFromTable | backend/app/services/accounts_common.py:118-166 | Which lines are rated, and that the rate of a line is the positive one that the HSN table gives most often for its own code or else its item's, the higher on a tie, and 0 without one or when the item is not taxable |
| GstOutcome.LineIsCharged | backend/app/services/accounts_common.py:228-301 | With derived GST, the last line of its item without a template is taxed over all rows at the rate from the table |
| GstOutcome.LineIsReversed | backend/app/services/accounts_common.py:341-418 | With reverse charge, where lines of one dictionary agree, every line is credited at the rate from the table and the deducted rows cancel it |
| GstOutcome.LineTakesRateOf | backend/app/services/accounts_common.py:468-469 | With reverse charge, of the items that share a dictionary the one whose first line comes last decides: all are credited at the table's rate for its last line |
| GstOutcome.HeaderRateMeans | backend/app/services/accounts_common.py:286-295 | A header rate is positive exactly when the positive rates that lines give the account are one and the same |
| GstRates.SplitPreservesRate | backend/app/services/accounts_common.py:258-281 | Over all heads a line's overrides sum to the rate of the last line with its key |
| GstRates.OwnRatesIff | backend/app/services/accounts_common.py:148-244 | Every line without a template receives its own HSN rate if and only if any two such lines of one item have the same rate |
| GstRates.FreeTextReceivesOwnRate | backend/app/services/accounts_common.py:148-154 | A free-text line always receives its own rate |
| GstRates.FirstLineTakesSecondRate | backend/app/services/accounts_common.py:244 | Of two lines of one item at 5% and 18% the first is taxed at 18% |
| RateDictionaries.ItemTaxRates | backend/app/services/accounts_common.py:76-109 | Items of one template with detail rows are handed one dictionary, all others one of their own, holding the template's rates |
| RateDictionaries.TemplateRatesMean | backend/app/services/accounts_common.py:88-109 | Lines of known items with a template start with the rates of its detail rows, the last row of an account counting; no other line has any |
| RateDictionaries.MergeOverrides | backend/app/services/accounts_common.py:468-469 | The overrides are written in place in their order, a key without a dictionary getting a new one, and every key of the same dictionary sees them |
| RateDictionaries.MergedIsLast | backend/app/services/accounts_common.py:468-469 | A key ends with its template's rates under the override of the last key written to its dictionary |
| RateDictionaries.AutoMerged | backend/app/services/accounts_common.py:239-281 | After derived GST is merged, items with a template keep the template's rates, every other rated line has its override, and all other lines have no rates |
| RateDictionaries.FreeTextUntaxedIff | backend/app/services/accounts_common.py:157-166 | A free-text line without a code is taxed at the header rate of each row, hence untaxed if and only if the lines do not agree on one positive rate |
| ReverseChargeBalance.ReverseChargeNeutralIff | backend/app/services/accounts_common.py:387-418 | After the merge in place every line's rates cancel, each added or deducted by the flag of its row, if and only if the credit account is not one of the two halves or no line ends up taxed; the header rates cancel if and only if the accounts are apart or they are 0 |
| ReverseChargeBalance.OwnRatesIff | backend/app/services/accounts_common.py:387-394 | Under reverse charge every line keeps its own HSN rate if and only if lines of one item agree on it, and lines of all items of one template with detail rows do |
| ReverseChargeBalance.FreeTextUntaxedIffMixed | backend/app/services/accounts_common.py:157-166 | Under reverse charge a free-text line without a code is untaxed if and only if two positive rates differ |
| ReverseChargeBalance.NamesKeepHeadsApart | backend/app/services/accounts_common.py:359-382 | If no account's name holds both "Input GST" and "CGST" or "SGST", the heads found are apart |
| ReverseChargeBalance.AmountsCancel | backend/app/services/taxes_and_totals.py:317-374 | For any net amounts the rows' amounts, added or deducted by the flag of each, cancel before rounding |
| ReverseChargeBalance.PayableNeutralIff | backend/app/services/taxes_and_totals.py:401-413 | With each row rounded and then added or deducted by its own flag, the payable is neutral exactly between states or when the rounded credit is even; otherwise one hundredth is left |
| ReverseChargeCases.SharedHeadUnbalances | backend/app/services/accounts_common.py:359-396 | With accounts named "Input GST CGST" and "SGST", a line at 18% has 9% on each of the three rows, so 9% is left |
| ReverseChargeCases.OneHundredthLeft | backend/app/services/taxes_and_totals.py:401-413 | A net amount of one half at 18% within a state leaves the payable one hundredth short |
| ReverseChargeCases.TemplateTakesLastRate | backend/app/services/accounts_common.py:468-469 | Two items of one template at 18% and 12% are both taxed at 12%, and one hundredth is left |
| ReverseChargeCases.ExemptItemUntaxesTemplate | backend/app/services/accounts_common.py:468-469 | An exempt item after a taxable one of its template leaves both untaxed |
| ReverseChargeCases.UncodedLineIsTaxed | backend/app/services/accounts_common.py:157-166 | A free-text line without a code is taxed at 18% beside one at 18% |
| TaxResolution.ResolveTaxes | backend/app/services/accounts_common.py:446-478 | Reverse charge replaces the rows at hand, derived GST steps in when there are none, and the dictionaries hold what the merge in place leaves |
| TaxResolution.DerivedOwnRatesIff | backend/app/services/accounts_common.py:258-281 | In derived GST, over all rows of the engine, every line without a template is taxed at its own rate if and only if such lines of one item agree |
| WorkflowEngine.Engine.GetTransitions | backend/app/core/workflow.py:33-42 | The transitions from a state that the roles allow, in query order |
| WorkflowEngine.AvailableMeans | backend/app/core/workflow.py:37-41 | A transition is available if and only if it is declared, leaves the state and is allowed to one of the roles |
| WorkflowEngine.AvailableInOrder | backend/app/core/workflow.py:37-42 | Each such transition is offered once, in query order |
| WorkflowEngine.Engine.ApplyAction | backend/app/core/workflow.py:44-98 | Each refusal, or the move of the document, its docstatus and one log row |
| WorkflowEngine.ActionOutcome | backend/app/core/workflow.py:59-94 | Refused exactly when no declared transition from where the document stands has the action and one of the user's roles, or the earliest such leads to an undeclared state; otherwise the document takes that state and its docstatus and one row logs it |
| WorkflowEngine.LogReplaysToState | backend/app/core/workflow.py:63-94 | Over every run, log rows replay to the document's state if and only if no row led to a nameless state; docstatus matches the last state, every row is a declared transition allowed to its user |
| WorkflowEngine.AlwaysReplaysIff | backend/app/core/workflow.py:63-94 | For documents that begin without a state, a definition makes every run replay if and only if no route of transitions that some user can take leads from a named initial state to a nameless one |
| WorkflowEngine.RouteIsRun | backend/app/core/workflow.py:63-94 | Every such route is taken by a run of accepted requests |
| WorkflowEngine.AnyStoreReplaysIff | backend/app/core/workflow.py:63-94 | Wherever documents stand at first, the same if and only if no such transition leads from a named state to a nameless one, or the initial state is nameless as well |
| WorkflowEngine.OutOfReachIsHarmless | backend/app/core/workflow.py:63-94 | A transition to a nameless state that is out of reach separates the two conditions |
| WorkflowEngine.NamedStatesReplay | backend/app/core/workflow.py:63-94 | In particular when all target states have names |
| WorkflowEngine.BlankStateBreaksLog | backend/app/core/workflow.py:63 | A definition with a nameless state and two requests whose log does not replay |
| WorkflowEngine.RefusedChangesNothing | backend/app/core/workflow.py:64-69 | Without a fitting transition the request is refused and changes nothing |
| AssetReports.FixedAssetRegister | backend/app/services/asset_reports.py:48-73 | The loop lists exactly the submitted assets of the category, disposed ones on demand, with their figures |
| AssetReports.RegisterShows | backend/app/services/asset_reports.py:38-72 | One row per submitted asset of the category, disposed ones on demand, with opening, adjustment and what was posted up to the date, and the rest as book value |
| AssetReports.DepreciationLedger | backend/app/services/asset_reports.py:84-113 | The loop lists exactly the posted rows of the period and asset, in query order |
| AssetReports.LedgerShows | backend/app/services/asset_reports.py:84-113 | One row per posted entry, in sequence, within whichever limits of date and asset are given |
| AssetReports.RegisterAgreesWithLedger | backend/app/services/asset_reports.py:49-113 | Between two dates the register book value of a listed asset falls by exactly its ledger rows after the first up to the second |
| AssetReports.RegisterEndsAtBookValue | backend/app/models/assets.py:201-213 | Once the date covers all posted rows, the register shows the asset's own accumulated depreciation and book value |

## Left out

- Database sessions, tenancy, permissions, audit rows, HTTP and other I/O: lookups are in finite maps and sequences, of one company.
- Python's 28-digit decimal context: divisions and products are exact, only explicit rounding calls round.
- BomRegister.Register.Create: does not model looking up items, costs, operations and names, which cannot change the selection.
- BomRegister.Register.Edit: the recomputed cost is a parameter.
- BomRegister.Register.Point: the other fields of the item form are left out; creating an item with a pointer is the same step.
- BomRegister.FindItemBom: documents are ordered by creation, so equal creation times do not occur.
- BomSafety.CheckedNeverRaises: the cycle check suffices over selections in which each item uses a BOM of its own, and not with stray pointers (`BomSafety.StrayPointerRaises`); the exact condition there is `BomSafety.NeverRaisesIff`.
- Rates of components (`resolve_component_rate`, live valuation): they do not touch quantities; item names beside item codes are merged the same way and add nothing.
- AccountTree.ChartOfAccounts.Rename: models the name and path only, the other account fields being plain assignments; seeding a chart from a template is left out.
- Slugs.SlugIsLabel: lower-casing is that of ASCII letters; other letters are replaced by an underscore, where Python would lower a few of them to ASCII first.
- Slugs.SlugJoinsWords: the same holds.
- NamingSeries.ExpandSeries: the date is given by its four strftime renderings.
- NamingProtocol.GapFree: takes the row lock of the upsert and the rollback of aborted transactions as the meaning of its steps.
- AmountWords.AmountRoundTrip: for listed currencies; an unlisted code stands for itself in the text, without surrounding white space being analysed; upper case is that of ASCII.
- GstRates.AutoGst: the tax accounts arrive in the order of their names, which the database's collation decides; digits and letters are those of ASCII.
- GstRates.ReverseCharge: the same holds.
- RateDictionaries.ItemTaxRates: the last detail row of an account counts, in query order.
- ReverseChargeBalance.PayableNeutralIff: covers rate rows on net amounts; document discounts and other charge types of the tax engine are left out.
- WorkflowEngine.LogReplaysToState: the definition, and the order in which its transitions are queried, is fixed during a run.
- Maintenance report, resolving tax templates, invoice status: single-pass decisions that would add only easy members.
