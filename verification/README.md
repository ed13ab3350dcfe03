# Models of the repository's build and quality tooling

This project models the algorithms behind the repository's `scripts/` directory and proves what those
algorithms are for. Each model keeps the branches, edge cases and constants of the script it follows;
what a script asks of npm, the file system, child processes or the TypeScript compiler becomes a
parameter or a map. Code that works by updating variables is a method or a class with loops and
invariants, proved against a specification whose own properties are proved as lemmas; code made of
expressions and recursion is functions.

`dafny verify dfyconfig.toml` checks the whole project.

## The models

**The gate scheduler** (`GateGraph`, `CycleFinder`, `Outcome`, `Scheduler`, `Makespan`, `RunRecords`, `LateSkip`,
`AfterEdges`, `SkipPhases`, `BoundExactness`, `EveryExecutor`, `ListOrder`; `scripts/run-gates.ts`).
An aggregate of gates has `needs` edges (the predecessor must pass) and `after` edges (it must only
settle). `CycleFinder` proves that validation accepts exactly the lists with distinct ids, known
predecessors and a rank function, and that a reported cycle is a closed walk of the graph. `Scheduler`
replays `runGates` as an object whose running gates settle in any order: an accepted aggregate always ends,
neither internal error can be thrown, each result is observed once and after the results it rests on, and the
report is the one of a run that takes one gate at a time, down to the failed needs a skip names. Its statuses are
the one solution of "run the executor if every need passed, otherwise skip", so interleavings, worker counts
and `after` edges never change one. A run also returns a record of its starts, skips and waits, and `RunRecords` proves
of it that the concurrency limit was never exceeded, that it waited only at the limit or with nothing to start, that
with one worker the observer saw the aggregate in its own order, and that the records are exactly the runs against the
clock of `Makespan`, whatever time the waits take. `Makespan` gives the same loop a clock and proves Graham's bound for every
moment of every run in which no executed gate waits for a skipped one; `LateSkip` is an aggregate on which the
bound fails without that. `AfterEdges` says which aggregates have no such wait, whatever the executor does.
`SkipPhases` and `BoundExactness` find the exact condition: the idle skips cut every run of an aggregate into the
same phases, and the bound holds, for all durations and worker counts, exactly when every executed gate follows
each executed gate of an earlier phase along a chain. `EveryExecutor` asks for the bound under every executor: the
part of the condition about gates that wait for no skip is a condition on the graph alone, and all of it if only one
gate waits. In general the order of the list enters: `ListOrder` has two lists of the same gates of which one keeps the
bound under every executor and the other does not.

**The schema-path analyser** (`Exports`, `PathLookup`, `PathMeaning`, `PathTermination`,
`PathPrecision`, `PathSharing`, `PathDivergence`, `PathText`, `SchemaWalk`, `SchemaMeaning`, `SchemaFold`, `SchemaCheck`;
`scripts/gen-config-catalog.ts`). The re-export search is proved exact despite cycles and its
shared `seen` set, over links read off the export statements as they are written; of several declarations it finds
the one at the end of the first chain. `PathMeaning` defines, as a least fixpoint, what members a declared type has: all interface
blocks and classes of a name count as one, a quoted key is the key, a method or accessor has its key, and an index
signature or a computed name may stand for any path. The script's walk does not keep to that meaning, so the walk is modelled with a second
mode, `repaired`, that reads all blocks as one, finds a member by its key and answers `unknown` where an open member
may answer. The repaired walk is proved sound on every world, for every interpretation of what it cannot see and
for both readings of a union (some branch, every branch). With unshared guards it is exact wherever no declaration
refers back to itself, names and members as they come: it ends, and decides every path the declarations decide, so
there the script's answer is right exactly when it is `unknown` or that walk's answer. Where names are plain and declared once,
the script is right exactly when it answers `unknown` or the repaired walk agrees, and always if all members are
property signatures.
Sharing `seen` across sibling branches only turns answers into `unknown`, and does so only if the walk enters some
declaration twice with the same number of steps left (`PathSharing`); so the script decides every path where no
declaration is reached along two chains of references and the members are listed property signatures. The walk ends on
every declaration graph in which no cycle adds more steps by indexed access than its members and elements consume;
`PathDivergence` proves that on a cycle of aliases it ends exactly then.
`SchemaWalk` models the walk over a schema expression, `SchemaMeaning` says which schemas it sees whole,
`SchemaFold` folds in the schemas it composes, and `SchemaCheck` carries a key from there through printing and
parsing to the verdict on its path.

**The npm publication** (`Publication`, `PublicationRun`, `ShellQuote`; `scripts/publish-npm-baseline.ts`).
Any number of `publish` processes may be started, interleaved command by command and killed anywhere.
Safety, recovery and idempotence are proved over every such run, and that a release verifies once any process has
completed. With one publisher at a time no upload is rejected or repeated; with several, an upload is rejected
exactly when another process uploaded that version after this one had looked. The printed command line is read
back by a tokenizer for POSIX.1-2017 Shell Command Language sections 2.2.1 to 2.2.3.

**The rename codemod** (`RescopeCells`, `RescopeRules`, `RescopeLine`, `RescopePatterns`, `RescopeText`,
`RescopeFile`, `RescopeTable`; `scripts/rescope-vendor.ts`). Its two regular expressions are modelled on
characters, proved to match exactly the texts the expressions spell out, shown equal to an edit of a line cut at quotes and line terminators, and from there the laws are
lifted to rename lists, to Markdown files with fences, and to the repository's own rename table.

**Graph and text algorithms**: `TopoSort` (`scripts/package-graph.ts`), `ProjectFaces` and `FaceMessages`
(`scripts/project-reference-faces.ts`), `MarkdownDestination` and `CommentCoverage` (`scripts/markdown.ts`),
`MarkdownSplice` and `MarkdownRewrite` (`scripts/project-doc-site.ts`), `DigestFraming`
(`scripts/client-build-environment.ts`), and `WorkerPool` with `Concurrency` (`scripts/publint-all.ts`). `JavaScript`, `Options`, `Sequences` and `Splitting` hold shared
definitions.

## Where the code does less than it says

- Publication is not safe for every bundle `ReleaseBundle.load` accepts. If the bundle's own dist-tag is
  `latest` and the entry package is not last, the entry package is announced before later packages exist.
  `SafeExactlyWhenEntryTagIsLast` gives the exact condition.
- A lone `publish` run completes exactly when no package is already present with other content and the entry
  package is in the bundle or already present at that version (`LoneRunCompletes`).
- The header of `scripts/rescope-vendor.ts` (lines 15-16) calls the rewrite idempotent. It is, exactly when no
  quote character closes one token of a name and opens another (`FileIdempotent`); with the script's own table
  the line `'cordis'cordis'` changes again on a second run (`SecondRunChanges`).
- `lookupPath` promises `unknown`, never `missing`, for what it cannot see through
  (`scripts/gen-config-catalog.ts`, lines 225 and 315), and line 760 reports every `missing` as a violation. It
  answers `missing` for a key that a method declares (`MethodIsMissed`) or an index signature may hold, for a key
  of a second interface block of the same name (`SecondBlockIsMissed`), and for a key declared in quotes, whose
  name it compares with them (`QuotedNameIsMissed`). `LiteralRightIff` and `InterfaceRightIff` give the exact
  condition for one step into a member list, `ScriptRightIff` for whole walks where no declaration refers back to
  itself, and `DeclTruth` and `TypeTruth` where names are plain.
- `walkSchemaExpr` promises an error for anything it cannot see instead of silent thinning (lines 416-419), and
  excepts only nested values that are neither `object` nor `array` compositions. It breaks the promise in four ways:
  a variant of a union that is no call is passed over (`VariantIsPassedOver`); below a key, properties that are no
  plain assignments are skipped, though a shorthand declares its key (`NestedPropertiesArePassedOver`); a computed name
  is collected as it is written (`ComputedNameIsTakenAsWritten`); and a value that is not built in place, which may be
  an object, contributes nothing (`NamedValueIsPassedOver`). `SeesAllIff` gives the exact condition for a schema: no
  violation, no such piece, every variant passed over composed elsewhere, and the keys as written the declared ones.
- `lookupPath` guards recursion by declaration and number of steps left, but indexed access adds a step, so
  `type A = A['x']` is walked for ever (`SelfIndexingDiverges`), and so is any cycle of aliases that holds an indexed
  access, but no other (`CycleEndsIff`).
- The skip of a doomed gate waits until nothing runs, so a gate that is `after` it starts late and the
  list-scheduling bound can fail (`LateSkip.BoundFails`). `BoundIffPhasesChained` gives the exact condition for an
  aggregate and its outcome. A caller who does not know the outcome keeps the bound if every gate a gate is `after`
  needs, directly or through others, only what that gate needs too; under every executor no executed gate then waits
  for a skipped one, and under some executor one does otherwise (`AwaitsNoSkipIffCovered`). Under every executor the
  bound is exact on the graph where one gate waits (`OneWaiterBoundIff`), and in general on the list
  (`BoundAlwaysIff`, `OrderDecides`).
- The destination scanner stops at any white space of the JavaScript `\s` class, while a CommonMark destination
  excludes only ASCII control characters and the space, it skips the character after a final backslash, and it
  takes the `>` that continues a block quote on the next line for the destination. `DestinationRecovered` gives the
  exact condition, `NoBreakSpaceCutsDestination`, `FinalBackslashOverrunsDestination` and `QuoteMarkerIsReturned` an
  input for each part.
- `runAll` needs at least one worker: with none and some target, the missing-result error is reached
  (`WorkerPool.RunAll`). `publintConcurrency` never gives it none, so the script does not reach it
  (`Concurrency.LintAll`).
- `concurrencyFromEnv` (`scripts/run-gates.ts`, lines 163-171) asks for a positive integer but drops whatever follows
  the digits, so `4 workers` counts as 4; `publintConcurrency` refuses it (`SuffixIsDropped`).

## Model

| member | source | states |
|---|---|---|
| CycleFinder.Finder.Visit | scripts/run-gates.ts:750-767 | One call of the recursive visit restores `path` and `active`, completes the id, or returns a closed walk of graph edges |
| CycleFinder.FindDependencyCycle | scripts/run-gates.ts:744-774 | Returns nothing iff the combined `needs`/`after` graph has a rank function; otherwise a genuine closed walk |
| CycleFinder.FindDuplicate | scripts/run-gates.ts:722-726 | Reports the first id that repeats, and nothing iff all ids differ |
| CycleFinder.FindUnknown | scripts/run-gates.ts:727-738 | Reports the first reference to an unknown gate with its kind, a gate's needs before its `after` gates, and nothing iff all references are known |
| CycleFinder.ValidateGateGraph | scripts/run-gates.ts:719-742 | Accepts exactly the well-formed aggregates; a rejection names the first defect: an empty list, else the first repeated id, else the first unknown reference, else a cycle |
| GateGraph.CycleRefutesRank | scripts/run-gates.ts:744-774 | A closed walk excludes every rank function |
| Outcome.SolutionIsUnique | scripts/run-gates.ts:798-844 | On a well-formed aggregate the defining equation of the statuses has one solution |
| Outcome.SolutionExists | scripts/run-gates.ts:798-844 | And it has one |
| Outcome.AfterEdgesAreIrrelevant | scripts/run-gates.ts:846-849 | Changing `after` edges changes no status |
| Scheduler.NeverStalls | scripts/run-gates.ts:810-814 | With nothing running and nothing startable, some pending gate has a failed or skipped need: the stall error is unreachable |
| Scheduler.GateRun.FindReady | scripts/run-gates.ts:801-802 | Finds the first startable gate in aggregate order, and none iff no gate is startable |
| Scheduler.GateRun.Start | scripts/run-gates.ts:803-806 | Moves exactly one startable gate to running and lowers the measure by one |
| Scheduler.GateRun.Fill | scripts/run-gates.ts:799-807 | Work conservation: afterwards the limit is met or nothing can start; only gates whose needs passed and `after` gates settled were started |
| Scheduler.GateRun.FindDoomed | scripts/run-gates.ts:810-814 | Idle with pending gates, the first gate with a failed need exists and is found |
| Scheduler.GateRun.Skip | scripts/run-gates.ts:815-828 | Settles one doomed gate as skipped, reports its failed needs, lowers the measure |
| Scheduler.GateRun.SettleOne | scripts/run-gates.ts:831-837 | Any running gate may settle; it gets the executor's status, leaves `running`, is observed once, and the measure falls |
| Scheduler.FailedDeps | scripts/run-gates.ts:815 | Exactly the needs that failed or were skipped |
| Scheduler.FailedDepsKeepOrder | scripts/run-gates.ts:815 | In their order: each stands at the number of failed needs before it, repetitions included, and there are no others |
| Scheduler.FaithfulStep | scripts/run-gates.ts:798-837 | Every start, skip and settlement keeps all settled gates in agreement with the defining equation |
| Scheduler.SettledIsSolution | scripts/run-gates.ts:840-844 | A state with every gate settled solves the defining equation |
| Scheduler.RunGates | scripts/run-gates.ts:784-844 | Finishes iff the graph is well formed and the limit is a positive safe integer; then reports the unique solution and the results of the sequential run in aggregate order; each result is observed once, an executed gate's after passes of its needs and after its `after` gates, a skip after the failures it names; and it leaves a record of moves, each allowed by the limit where it is made, of which the observer saw exactly the settlements and skips in their order, and which leaves nothing unsettled |
| Scheduler.CollectResults | scripts/run-gates.ts:840-844 | No result is missing at the end, and the results are the solution's |
| Scheduler.SequentialExecutesAny | scripts/run-gates.ts:801-806 | In a run of one gate at a time, any startable gate may be executed first: all results come out the same |
| Scheduler.SettleRefines | scripts/run-gates.ts:831-837 | Whichever running gate settles, finishing the rest one gate at a time still gives the sequential results |
| Scheduler.SkipRefines | scripts/run-gates.ts:810-828 | So does the skip made when idle, with the failed needs known at that moment |
| Scheduler.ReportsAgree | scripts/run-gates.ts:784-844 | Confluence: two finished runs of one aggregate report the same list of results, failed needs of skips included, whatever their interleavings and worker counts; the statuses are the solution's |
| Makespan.RemainingAfterStart | scripts/run-gates.ts:801-806 | Starting a gate changes no remaining chain |
| Makespan.RemainingAfterSkip | scripts/run-gates.ts:810-828 | Nor does skipping one |
| Makespan.RemainingAfterWait | scripts/run-gates.ts:831-837 | A wait never lengthens a remaining chain, and shortens all of them by its length when nothing could start and no executed gate waits for a skipped one |
| Makespan.PaidAfterWait | scripts/run-gates.ts:831-837 | The list-scheduling potential survives every wait |
| Makespan.MakespanBound | scripts/run-gates.ts:798-837 | At every moment T of every run in which no executed gate waits for a skipped one, failures included, m*T <= W + (m-1)*L over the executed gates |
| Makespan.AllPassingAwaitsNoSkip | scripts/run-gates.ts:798-849 | Every all-passing run is such a run |
| RunRecords.LimitKept | scripts/run-gates.ts:799-806 | At every moment of a recorded run at most `maxActive` gates are in flight |
| RunRecords.WaitsWhenFull | scripts/run-gates.ts:799-833 | A wait is for a gate in flight, and is made with `maxActive` of them or with nothing startable |
| RunRecords.RunLeavesRecord | scripts/run-gates.ts:798-837 | Every run against the clock leaves such a record |
| RunRecords.RecordIsTimedRun | scripts/run-gates.ts:798-837 | Every record is, whatever time each wait took, a run against the clock with the limit as worker count, for the durations the waits add up to |
| RunRecords.TakesUntilSettled | scripts/run-gates.ts:803-834 | In those durations a gate takes from its start until it settled |
| RunRecords.RecordKeepsBound | scripts/run-gates.ts:798-837 | So Graham's bound holds at every moment of a recorded run in which no executed gate waits for a skipped one, and the total work bounds any |
| RunRecords.OneWorkerIsSequential | scripts/run-gates.ts:798-837 | With `maxActive` 1 the observer sees the first startable gate of the aggregate, then the next, and with none the first doomed one |
| LateSkip.BoundFails | scripts/run-gates.ts:810-837 | Two workers, a failing gate, a gate that needs it, one `after` that, and a long one: the run ends at 20 with W + L at most 30 |
| AfterEdges.RunsIffNeedsPass | scripts/run-gates.ts:798-844 | A gate is executed iff the executor passes everything it needs, directly or through others |
| AfterEdges.AwaitsNoSkipIffCovered | scripts/run-gates.ts:846-849 | No executed gate waits for a skipped one, under any executor, iff each gate needs all that the gates it is `after` need |
| AfterEdges.CoveredKeepsBound | scripts/run-gates.ts:798-849 | Then the bound holds at every moment of every run |
| AfterEdges.HarmlessWait | scripts/run-gates.ts:810-837 | A gate that waits for a skipped one although the bound holds of all its runs |
| Makespan.NoLongerThanWork | scripts/run-gates.ts:798-837 | No run of any aggregate is ever later than its total work |
| Makespan.SerialBound | scripts/run-gates.ts:798-837 | So the bound always holds with one worker, or if the longest chain is all the work |
| SkipPhases.PhasesExecuteAny | scripts/run-gates.ts:801-828 | The number of skips before a gate does not depend on which startable gate is executed first |
| SkipPhases.RunHasPhases | scripts/run-gates.ts:798-837 | At every moment of every timed run, what is unsettled has the phases of the aggregate |
| SkipPhases.ChainedKeepsBound | scripts/run-gates.ts:798-837 | The bound holds at every moment if each executed gate follows every executed gate of an earlier phase along a chain of executed gates |
| BoundExactness.WholeRun | scripts/run-gates.ts:798-844 | Every plan has a timed run that settles all its gates |
| BoundExactness.UnchainedBreaksBound | scripts/run-gates.ts:810-837 | Otherwise durations and a run of two workers exist that break the bound |
| BoundExactness.BoundIffPhasesChained | scripts/run-gates.ts:798-837 | For given gates and executor, the bound holds for all durations, worker counts, runs and moments iff phases are chained |
| EveryExecutor.StartsWithPredecessors | scripts/run-gates.ts:846-849 | An executed gate whose predecessors are all executed starts in the last of their phases |
| EveryExecutor.FirstIffSheltered | scripts/run-gates.ts:798-849 | An executed gate waits for no skip iff everything it rests on is executed |
| EveryExecutor.EarlyChainedIffFollowed | scripts/run-gates.ts:798-849 | Under every executor, what waits for a skip follows all executed gates that wait for none, iff each gate that can be made to wait, sparing it and another, rests on that other along gates that cannot be skipped: a condition on the graph alone |
| EveryExecutor.BoundAlwaysIff | scripts/run-gates.ts:798-849 | The bound holds under every executor iff that condition holds and no executor's skips part two unchained gates |
| EveryExecutor.OneWaiterBoundIff | scripts/run-gates.ts:798-849 | If only one gate is `after` something that needs more than it does, the graph condition alone is exact |
| ListOrder.OrderDecides | scripts/run-gates.ts:810-815 | For any five ids, one list of the same gates keeps the bound under every executor and another does not |
| Makespan.LongestChainIsLongest | scripts/run-gates.ts:846-849 | L is the largest summed duration of any chain of `needs`/`after` edges through executed gates, and is attained unless it is zero |
| Exports.OutcomeIsGenuine | scripts/gen-config-catalog.ts:256-278 | What the search returns is declared at the end of a genuine chain of re-exports |
| Exports.FailureExhausts | scripts/gen-config-catalog.ts:256-278 | A failed search leaves every newly seen key undeclared with all its links seen, although `seen` is shared |
| Exports.SearchIsExact | scripts/gen-config-catalog.ts:254-278 | The search fails iff no chain of named, renamed or star re-exports, as the statements are written, reaches a declaration or an unreadable file |
| Exports.TargetLeads | scripts/gen-config-catalog.ts:263-273 | At each statement the search goes where it leads as written: `export * from` to the same name, `export { a as b } from` by the first element exported as that name to its source, any other nowhere |
| Exports.SearchTakesFirst | scripts/gen-config-catalog.ts:256-278 | Of several declarations it finds the one at the end of the chain that takes, at each file, the first re-export behind which there is one without coming back |
| Exports.FirstIsOne | scripts/gen-config-catalog.ts:256-278 | And there is only one such chain |
| Exports.DeclaresTheFirst | scripts/gen-config-catalog.ts:133-139 | A name is read as the first interface, alias or enum of it in the file |
| Exports.AllKeysIsUniverse | scripts/gen-config-catalog.ts:256-275 | The files' names form a finite set no re-export leaves, so the search always ends |
| Exports.DeclForTypeName | scripts/gen-config-catalog.ts:283-304 | A resolved name is the declaration found at the returned file and name |
| Exports.ResolvedIsDeclared | scripts/gen-config-catalog.ts:254-304 | Resolution through re-exports reaches a declaration along a genuine chain |
| Exports.NameDenotes | scripts/gen-config-catalog.ts:283-304 | A name resolves to the declaration it leads to: its own in the file, or the end of the first chain from where it is imported; the script throws iff that is an unreadable file, and finds the name out of reach iff it leads nowhere |
| Exports.DenotesOne | scripts/gen-config-catalog.ts:283-304 | A name leads to one declaration or file at most |
| PathMeaning.PartsCombineSoundly | scripts/gen-config-catalog.ts:330-334 | Combining sound branch answers is sound for intersections and for unions |
| PathMeaning.TypeSound | scripts/gen-config-catalog.ts:315-403 | The repaired walk says `found` only of a path the type has and `missing` only of one it lacks, at any type node of any world |
| PathMeaning.DeclSound | scripts/gen-config-catalog.ts:315-365 | The same at a declaration, with own members shadowing heritage and all blocks of a name counted |
| PathMeaning.TypeHedges | scripts/gen-config-catalog.ts:317-403 | Among plain names declared once, the script's walk visits and guards the same places as the repaired one, and where it is definite they differ only in a `missing` that some interpretation refutes; without methods and open members never |
| PathMeaning.DeclTruth | scripts/gen-config-catalog.ts:225-226 | The script's answer at a declaration is right under every interpretation and reading if the repaired walk agrees; among plain names declared once iff it is `unknown` or the repaired walk agrees; and always if all members are property signatures too |
| PathMeaning.TypeTruth | scripts/gen-config-catalog.ts:315-403 | The same at any type node |
| PathMeaning.LiteralRightIff | scripts/gen-config-catalog.ts:335-344 | One step into a type literal is answered rightly iff what the name as written finds is declared, or nothing is found, no property, method or accessor declares the key, and no member is open |
| PathMeaning.InterfaceRightIff | scripts/gen-config-catalog.ts:346-364 | The same for one step into an interface without bases, where the script reads the first block and the declaration is all of them |
| PathMeaning.MethodIsMissed | scripts/gen-config-catalog.ts:337-343 | `missing` for the key of a method, which every interpretation has; for another key it would be right |
| PathMeaning.SecondBlockIsMissed | scripts/gen-config-catalog.ts:133-139 | `missing` for a key of the second of two interface blocks |
| PathMeaning.QuotedNameIsMissed | scripts/gen-config-catalog.ts:338 | `missing` for a key declared in quotes |
| PathTermination.TypeFuel | scripts/gen-config-catalog.ts:317-403 | An answer does not depend on the model's depth bound |
| PathTermination.TypeSharing | scripts/gen-config-catalog.ts:317-326 | The guard set shared across branches gives the unshared answer or `unknown` |
| PathTermination.DeclSharing | scripts/gen-config-catalog.ts:317-326 | The same at a declaration |
| PathTermination.BudgetShrinks | scripts/gen-config-catalog.ts:322-326 | A guarded visit uses up one of finitely many guards |
| PathTermination.TypeEnds | scripts/gen-config-catalog.ts:317-403 | The walk ends at every type node if no cycle of declarations adds more steps by indexed access than it consumes by members and elements |
| PathTermination.DeclEnds | scripts/gen-config-catalog.ts:317-365 | The same at a declaration |
| PathTermination.DirectIsBounded | scripts/gen-config-catalog.ts:317-403 | In particular without indexed access, however declarations refer to each other |
| PathTermination.IndexedInterfaceIsBounded | scripts/gen-config-catalog.ts:383-388 | And for an alias that indexes a recursive interface |
| PathTermination.IndexedBelowMemberIsBounded | scripts/gen-config-catalog.ts:383-388 | And for `type A = { x: A['x'] }`, whose cycle adds one step and consumes one |
| PathTermination.SelfIndexingDiverges | scripts/gen-config-catalog.ts:383-388 | A self-indexing alias exhausts every depth bound |
| PathTermination.SelfIndexingIsUnbounded | scripts/gen-config-catalog.ts:383-388 | And the condition excludes it |
| PathDivergence.CycleDiverges | scripts/gen-config-catalog.ts:383-388 | A cycle of aliases, in one file or across imports, that holds an indexed access is walked for ever |
| PathDivergence.CycleReturns | scripts/gen-config-catalog.ts:322-326 | One that holds none comes back to a guard and is answered `unknown` |
| PathDivergence.CycleEndsIff | scripts/gen-config-catalog.ts:317-388 | From an alias of a cycle the walk of a path ends iff no alias of the cycle is an indexed access |
| PathDivergence.BoundedCyclesAddNothing | scripts/gen-config-catalog.ts:317-388 | So on cycles of aliases the potential is necessary as well |
| PathText.ParsePath | scripts/gen-config-catalog.ts:232-245 | The loop yields the steps of the segments' names and array hops |
| PathText.CollectValuePaths | scripts/gen-config-catalog.ts:431-451 | The recursion pushes the printed path of every member below a schema value, each `array` call being one hop, in order |
| PathText.PathRoundTrip | scripts/gen-config-catalog.ts:232-245 | A printed path parses back iff no key holds a dot or ends in brackets |
| PathPrecision.DeclExact | scripts/gen-config-catalog.ts:315-403 | On acyclic declarations the repaired walk with unshared guards says `found` exactly of the paths the type has under every interpretation and reading, and `missing` exactly of those it has under none |
| PathPrecision.DeclFinishes | scripts/gen-config-catalog.ts:317-403 | On acyclic declarations every walk ends, indexed access included, and with an answer unless a file fails to load |
| PathPrecision.ScriptRightIff | scripts/gen-config-catalog.ts:225-226 | There the exact walk ends, and if no file fails to load the script's answer is right under every interpretation and reading iff it is `unknown` or that walk's answer |
| PathPrecision.ScriptExact | scripts/gen-config-catalog.ts:317-403 | The script's walk with unshared guards ends and is exact too if all members are property signatures under plain names, and sharing them can only leave such an answer open |
| PathSharing.DeclShares | scripts/gen-config-catalog.ts:317-326 | A walk that sets no guard twice gives the same answer with one guard set for all branches, and has then set the guards it entered |
| PathSharing.DifferenceIsRepeat | scripts/gen-config-catalog.ts:317-326 | The script's answer differs from the unshared one only if that walk enters some declaration twice with the same number of steps left |
| PathSharing.MeetsOnceIsFresh | scripts/gen-config-catalog.ts:317-364 | Where the parts and bases met by one walk hold no declaration twice, no guard is set twice, whatever the path |
| PathSharing.OneChainMeetsOnce | scripts/gen-config-catalog.ts:317-403 | In particular where no declaration is reached along two different chains of references |
| PathSharing.ScriptDecides | scripts/gen-config-catalog.ts:315-403 | There, on acyclic declarations whose members are all property signatures under plain names and with every file loading, the script says `found` exactly of the paths the type always has and `missing` exactly of those it never has |
| PathSharing.RepairedDecides | scripts/gen-config-catalog.ts:315-403 | The repaired walk with shared guards does so whatever the names and members |
| PathSharing.InheritedKeyIsDecided | scripts/gen-config-catalog.ts:346-364 | The script finds a key that only the base of an interface declares, and answers `missing` for one that neither does |
| SchemaWalk.Walker.VisitProperty | scripts/gen-config-catalog.ts:460-467 | One property of an `object` call pushes its key and the paths below it, or a violation |
| SchemaWalk.Walker.VisitParts | scripts/gen-config-catalog.ts:471-491 | The loops over `intersect` and `union` elements: a composed package, an inline schema, a violation, or nothing |
| SchemaWalk.Walker.Visit | scripts/gen-config-catalog.ts:452-497 | The whole recursive visit appends exactly the specified findings to the three lists |
| SchemaWalk.WalkSchemaExpr | scripts/gen-config-catalog.ts:422-500 | From empty lists |
| SchemaMeaning.SchemaAccounted | scripts/gen-config-catalog.ts:422-500 | Every path a schema holds is declared in place, composed, behind a violation, at a site where the walk reads on without one, or in a variant passed over, and each of these is of the schema |
| SchemaMeaning.SeesAllIff | scripts/gen-config-catalog.ts:412-421 | The collected and composed paths are those of the schema, whatever the unread syntax holds, iff there is no violation, no piece hidden without one, every variant passed over is composed as well, and the keys as written are the declared ones |
| SchemaMeaning.VariantIsPassedOver | scripts/gen-config-catalog.ts:484-491 | A union of another package's schema and an object loses the first without a violation |
| SchemaMeaning.NestedPropertiesArePassedOver | scripts/gen-config-catalog.ts:436-443 | Below a key, a shorthand and a spread are skipped without a violation, though the shorthand's key is held under every interpretation |
| SchemaMeaning.ComputedNameIsTakenAsWritten | scripts/gen-config-catalog.ts:460-464 | A computed name is collected as its text, which the schema need not hold, and the key it stands for is not |
| SchemaMeaning.NamedValueIsPassedOver | scripts/gen-config-catalog.ts:433-435 | A value that is no call contributes nothing, though it may be an object |
| SchemaFold.Folder.FoldComposed | scripts/gen-config-catalog.ts:735-749 | With its mutable `seen` and violations, one fold takes each new package once, with its keys in order and a violation for each composed package that was not collected |
| SchemaFold.FoldEntry | scripts/gen-config-catalog.ts:735-750 | From scratch: the keys of exactly the packages a chain of compositions leads to, each package once, and a violation for exactly what those compose in vain |
| SchemaCheck.ReportKeys | scripts/gen-config-catalog.ts:759-763 | The loop reports exactly the keys answered `missing`, in order |
| SchemaCheck.CheckEntry | scripts/gen-config-catalog.ts:733-763 | One package's check: of all keys folded from any depth it reports those the lookup says are missing, and it names the packages composed in vain |
| SchemaCheck.SchemaKeyIsJudged | scripts/gen-config-catalog.ts:757-763 | The key printed for any path of a schema is looked up as that path, and the verdict on it is right under the conditions of the walk |
| SchemaCheck.SchemaKeyIsRightIff | scripts/gen-config-catalog.ts:757-763 | On acyclic declarations the verdict is right iff it is `unknown` or the exact walk's, which ends |
| SchemaCheck.JudgeLooksUpThePath | scripts/gen-config-catalog.ts:757-760 | The verdict on a printed path is the script's lookup of that path |
| SchemaCheck.ReportsWhatIsNeverHad | scripts/gen-config-catalog.ts:757-763 | Where the script decides, a path is reported iff the config type has it under no interpretation |
| Publication.PublicationIsSafe | scripts/publish-npm-baseline.ts:625-654 | In every state of every crashed, restarted and concurrent run, `latest` of the entry package is the bundle version only if every package is present with its integrity |
| Publication.NoVersionIsUploadedTwice | scripts/publish-npm-baseline.ts:631-640 | With one publisher at a time, killed and restarted at will, no upload is ever rejected, and none is attempted twice or over a version the registry held |
| Publication.UploadAddsOne | scripts/publish-npm-baseline.ts:631-640 | An upload adds one package's version and moves one tag of it; all other versions and tags stay |
| Publication.SetTagSetsOne | scripts/publish-npm-baseline.ts:753-764 | Setting a tag moves that tag of that package and no other |
| Publication.RejectedExactlyWhenRaced | scripts/publish-npm-baseline.ts:631-640 | In every concurrent run an upload is rejected exactly when another process uploaded that version between this process's look and its upload |
| Publication.EarlyEntryIsUnsafe | scripts/publish-npm-baseline.ts:631-651 | With dist-tag `latest` and the entry package not last, a run announces an incomplete release |
| Publication.SafeExactlyWhenEntryTagIsLast | scripts/publish-npm-baseline.ts:625-654 | The safety property holds of a bundle iff its tag is not `latest` or its entry package is last |
| PublicationRun.LoneRunCompletes | scripts/publish-npm-baseline.ts:625-713 | A lone run completes iff no package clashes and the entry package can be announced; then the release verifies |
| PublicationRun.RunsRecover | scripts/publish-npm-baseline.ts:625-713 | After any crashes and concurrency from a publishable registry, a run left alone completes and verifies |
| PublicationRun.CompletedMeansVerified | scripts/publish-npm-baseline.ts:625-697 | In every interleaved and crashed run, once a process has completed the release verifies, then and in every later state, although verification is a series of reads |
| PublicationRun.RepublishIsIdle | scripts/publish-npm-baseline.ts:625-654 | Publishing a verified release again changes nothing |
| PublicationRun.RegistryPublication.EnsureDistTag | scripts/publish-npm-baseline.ts:755-764 | Sets one tag to the bundle version, or fails on a version the registry lacks |
| PublicationRun.RegistryPublication.PublishPackage | scripts/publish-npm-baseline.ts:631-650 | Uploads a missing version, accepts an identical one, rejects a clash, then tags |
| PublicationRun.RegistryPublication.VerifyRemote | scripts/publish-npm-baseline.ts:656-697 | Accepts iff every package is present with its integrity and tag and the entry tag matches |
| PublicationRun.RegistryPublication.Publish | scripts/publish-npm-baseline.ts:625-654 | The uninterrupted run refines the command-by-command process; it succeeds iff the registry is publishable, verifies, and keeps every version |
| ShellQuote.ArgumentReads | scripts/publish-npm-baseline.ts:998-1003 | One quoted argument is read as one field holding the argument |
| ShellQuote.QuoteRoundTrip | scripts/publish-npm-baseline.ts:994-1003 | Reading the quoted list gives the list back, empty arguments and single quotes included |
| ShellQuote.CommandRoundTrip | scripts/publish-npm-baseline.ts:994-996 | The whole line reads back as command and arguments |
| ShellQuote.BareIffSafe | scripts/publish-npm-baseline.ts:998-999 | An argument is printed bare iff it is not empty and has only safe characters |
| RescopeCells.PassesCommute | scripts/rescope-vendor.ts:541-545 | Two replacements that never see each other's forms can be applied in either order |
| RescopeCells.PassUndone | scripts/rescope-vendor.ts:531-544 | With no target form present, the inverse replacement restores the line |
| RescopeCells.LeftoverIffShared | scripts/rescope-vendor.ts:531-544 | One global replacement leaves an occurrence behind iff two tokens share a quote |
| RescopeRules.TokensDisjoint | scripts/rescope-vendor.ts:531 | Token patterns of unrelated names never match the same text, before or after a rewrite |
| RescopeRules.YamlsDisjoint | scripts/rescope-vendor.ts:532 | The same for the YAML `name:` patterns |
| RescopeRules.FormsDisjoint | scripts/rescope-vendor.ts:531-532 | A quoted token and a YAML scalar never match the same text |
| RescopeRules.RulesUndone | scripts/rescope-vendor.ts:539-547 | If no target name occurs, applying the inverse renames in any order restores the line |
| RescopeRules.IdempotentIffUnshared | scripts/rescope-vendor.ts:539-547 | A second application changes nothing iff no two tokens of one name share a quote |
| RescopeLine.TokensArePass | scripts/rescope-vendor.ts:531-543 | The left-to-right global token replacement is an edit of the line's cells |
| RescopeLine.YamlIsPass | scripts/rescope-vendor.ts:532-544 | The multi-line YAML replacement, whose prefix may cross line terminators, is an edit of the line's cells |
| RescopePatterns.TokenMatchIsPattern | scripts/rescope-vendor.ts:531 | The scanner matches exactly the texts of the token pattern: a quote of one of the three kinds, the name, nothing or a slash and no quotes or white space, and the same quote |
| RescopePatterns.TokenIsReplaced | scripts/rescope-vendor.ts:543 | Such a token keeps its quotes and subpath, and replacing goes on behind it |
| RescopePatterns.OneTokenIsReplaced | scripts/rescope-vendor.ts:543 | For each quote and subpath, the token of one name becomes that of the other |
| RescopePatterns.OtherTextIsCopied | scripts/rescope-vendor.ts:543 | A character where no token begins is copied |
| RescopePatterns.YamlMatchIsPattern | scripts/rescope-vendor.ts:532 | At a line's start the scanner matches exactly the texts of the YAML pattern: white space, a dash or none, `name:`, spaces or tabs, the name, and blanks or a comment up to the line's end |
| RescopePatterns.ScalarIsReplaced | scripts/rescope-vendor.ts:544 | Its name is replaced and the text around it kept |
| RescopePatterns.OneScalarIsReplaced | scripts/rescope-vendor.ts:544 | For each prefix and trailer, the scalar of one name becomes that of the other |
| RescopePatterns.OtherLinesAreCopied | scripts/rescope-vendor.ts:544 | A character where no such match begins is copied |
| RescopeText.LineIsCells | scripts/rescope-vendor.ts:539-547 | `rewriteLine` is the cells' edit for every valid rename list |
| RescopeText.HeldIsPresent | scripts/rescope-vendor.ts:531-532 | The patterns match somewhere in the line iff the cells hold the name |
| RescopeText.LineRoundTrip | scripts/rescope-vendor.ts:539-547 | Reverse after forward restores every line holding no target name |
| RescopeText.LineIdempotent | scripts/rescope-vendor.ts:539-547 | Rewriting a line twice is rewriting it once iff no source-name tokens share a quote |
| RescopeFile.RewriteLine | scripts/rescope-vendor.ts:539-547 | The loop over patterns with its skips applies exactly the file's active renames in order |
| RescopeFile.OneActive | scripts/rescope-vendor.ts:535-537 | A pattern applies to a file unless a skip of that very file lists its upstream name |
| RescopeFile.OneOriented | scripts/rescope-vendor.ts:522-526 | A rename goes from the upstream to the scoped name, and back in the reverse run |
| RescopeFile.LongestFirst | scripts/rescope-vendor.ts:520-533 | The patterns are all of the table's, longer source names first |
| RescopeFile.FenceIsThreeBackticks | scripts/rescope-vendor.ts:567 | A fence line is three backticks behind white space |
| RescopeFile.InsideFenceIsOdd | scripts/rescope-vendor.ts:566-570 | The toggled flag says whether the number of fence lines above is odd |
| RescopeFile.Rewrite | scripts/rescope-vendor.ts:560-578 | The toggling loop rewrites exactly the eligible lines and counts the lines that changed |
| RescopeFile.DifferencesCountPositions | scripts/rescope-vendor.ts:573-575 | The count is the number of positions where the files differ |
| RescopeFile.LineKeepsFence | scripts/rescope-vendor.ts:566-573 | Rewriting never creates or removes a fence line |
| RescopeFile.RewriteKeepsShape | scripts/rescope-vendor.ts:560-578 | After rewriting, the same lines are eligible |
| RescopeFile.ReverseInverts | scripts/rescope-vendor.ts:520-537 | The reverse run's active renames are the inverses of the forward run's, with the same skips |
| RescopeFile.FileRoundTrip | scripts/rescope-vendor.ts:520-578 | Forward then reverse is the identity on a file none of whose eligible lines holds a target name |
| RescopeFile.FileIdempotent | scripts/rescope-vendor.ts:560-578 | A second run changes nothing iff no eligible line has two source-name tokens sharing a quote |
| RescopeFile.SeparatedIsCompatible | scripts/rescope-vendor.ts:520-537 | A table of separated names is compatible in every file, skip list and direction |
| RescopeTable.TableIsSeparated | scripts/rescope-vendor.ts:46-56 | No name of the table is another of its names or a path prefix of one |
| RescopeTable.TableRoundTrip | scripts/rescope-vendor.ts:46-578 | With the repository's table, forward then reverse is the identity on every file without scoped names |
| RescopeTable.SecondRunChanges | scripts/rescope-vendor.ts:15-56 | With the repository's table, a line of two tokens sharing a quote is changed again by a second run |
| Splitting.JoinOfSplit | scripts/rescope-vendor.ts:565-577 | Joining the split lines gives the text back |
| Splitting.SplitUndoesJoin | scripts/gen-config-catalog.ts:234 | Splitting a joined list gives it back iff no part holds the separator |
| Sequences.SortOrders | scripts/package-graph.ts:64-66 | The sort returns a permutation of the input in the comparator's order |
| Sequences.SortIsStable | scripts/package-graph.ts:64-66 | Elements that tie keep the order they came in |
| Sequences.StrictOrderIsUnique | scripts/package-graph.ts:64-66 | A list in order equals every strictly ordered list of the same elements |
| TopoSort.CompareIsTransitive | scripts/package-graph.ts:77-83 | `comparePackages` is transitive |
| TopoSort.CompareIsTotal | scripts/package-graph.ts:77-83 | It separates packages with different names |
| TopoSort.CompareIsByGroupThenName | scripts/package-graph.ts:77-83 | A package compares smaller iff its group is listed first, unlisted groups last, or at the same place its group's name, or then its own, comes first |
| TopoSort.PlaceLayer | scripts/package-graph.ts:68-72 | The inner loop moves a whole layer from `remaining` to the output and to `placed` |
| TopoSort.TopoSort | scripts/package-graph.ts:59-75 | The output is a permutation of the packages sorted by depth and then `comparePackages`; an error names packages that each need one of them or one outside the set, and everything else has a depth |
| TopoSort.SortedIffRanked | scripts/package-graph.ts:63-67 | It succeeds iff no dependency chain cycles or leaves the set |
| TopoSort.DepsComeFirst | scripts/package-graph.ts:63-73 | Every dependency stands before its dependent |
| TopoSort.DepthIsLongestChain | scripts/package-graph.ts:63-73 | A package's layer is the length of its longest dependency chain |
| TopoSort.InputOrderIsIrrelevant | scripts/package-graph.ts:59-75 | The outcome depends only on which packages there are |
| TopoSort.DistinctEntries | scripts/package-graph.ts:60 | With distinct names the map holds the packages in input order |
| ProjectFaces.SplitRootIsInnermost | scripts/project-reference-faces.ts:65-121 | The first match in the length-sorted list is the innermost split package around the target |
| ProjectFaces.ProjectFaceIsChainFace | scripts/project-reference-faces.ts:88-103 | The search with its `seen` set finds the face of the whole extends chain |
| ProjectFaces.FaceIsEventual | scripts/project-reference-faces.ts:88-103 | Following the chain further than there are configs finds nothing new |
| ProjectFaces.CheckReferences | scripts/project-reference-faces.ts:39-58 | The inner loop reports exactly the bad references and pushes exactly the others |
| ProjectFaces.SplitRootIsFound | scripts/project-reference-faces.ts:65-121 | The split root is the innermost package around the target that holds both `tsconfig.host.json` and `tsconfig.client.json` |
| ProjectFaces.FaceIsInherited | scripts/project-reference-faces.ts:88-103 | A config's face is that of the nearest config on its extends chain with a leaf's file name or the path of one of the two base configs |
| ProjectFaces.LeafHasItsFace | scripts/project-reference-faces.ts:51-94 | The leaf a face is sent to has that face |
| ProjectFaces.BadIsWrong | scripts/project-reference-faces.ts:39-57 | A reference is rejected iff it enters a split root and is not to `tsconfig.host.json` there from a host config, nor to `tsconfig.client.json` from a client config |
| ProjectFaces.ExactReportsWrong | scripts/project-reference-faces.ts:30-63 | Reported are exactly such references of the existing configs reached over others from the two aggregates, with the config, the reference as written, the split root and the face |
| ProjectFaces.CollectViolations | scripts/project-reference-faces.ts:30-63 | Reports exactly the bad references of the existing configs reached over good references, each config's once; or fails on an unparsable config that was consulted, exactly when there is one |
| ProjectFaces.EmptyIffKept | scripts/project-reference-faces.ts:30-63 | The list is empty iff every reference into a split root, of any config reachable over any references from the two aggregates, names the leaf file of that config's face |
| ProjectFaces.StackOrderIsIrrelevant | scripts/project-reference-faces.ts:34-59 | Two exact traversals report the same violations, with multiplicity |
| FaceMessages.CollectMessages | scripts/project-reference-faces.ts:30-63 | The whole function, rendering and final sort included: it returns the sorted messages of an exact list of violations, or fails on an unparsable config that was consulted, exactly when there is one |
| FaceMessages.ReportIsDetermined | scripts/project-reference-faces.ts:45-62 | The rendered and sorted diagnostics are one list in order, whatever the order of the traversal |
| FaceMessages.ReportIsEmptyIffKept | scripts/project-reference-faces.ts:30-63 | They are empty iff every config reachable over any references keeps to its face's leaves |
| FaceMessages.OrderIsByFirstDifference | scripts/project-reference-faces.ts:62 | The final sort compares character by character: a prefix first, else by the first difference |
| FaceMessages.RepoPathLeadsBack | scripts/project-reference-faces.ts:123-125 | A printed path, read at its slashes, leads from the root back to the path |
| FaceMessages.OriginReads | scripts/project-reference-faces.ts:44-55 | A message names the face of the config and the leaf file the reference should be to |
| MarkdownDestination.LabelEnd | scripts/markdown.ts:90-104 | The loop finds the unescaped bracket that closes the first one |
| MarkdownDestination.SkipWhitespace | scripts/markdown.ts:84-88 | Everything skipped is white space, and the loop stops at the end or at the first character that is not |
| MarkdownDestination.DestinationRange | scripts/markdown.ts:106-140 | The scanner's loops compute the scan the laws below are about, errors included |
| MarkdownDestination.FlatLabel | scripts/markdown.ts:90-104 | Without escapes and groups a label is any text without brackets and backslashes |
| MarkdownDestination.FlatBare | scripts/markdown.ts:128-139 | And a bare destination any without parentheses, backslashes, ASCII control characters and spaces |
| MarkdownDestination.FlatAngle | scripts/markdown.ts:119-126 | And an angle-bracket destination any without angle brackets, backslashes and line endings |
| MarkdownDestination.LabelIsFound | scripts/markdown.ts:90-104 | For every balanced-or-escaped label the scan ends where the label does |
| MarkdownDestination.DestinationRecovered | scripts/markdown.ts:106-140 | For every link, image or definition of CommonMark 0.31.2 sections 6.3 and 4.7, inside block quotes or not, the scanner returns the destination's slice iff no quote marker stands before it and a bare destination has no JavaScript white space outside its parentheses and no final backslash before more text |
| MarkdownDestination.NoBreakSpaceCutsDestination | scripts/markdown.ts:128-139 | A destination holding a no-break space is cut short |
| MarkdownDestination.FinalBackslashOverrunsDestination | scripts/markdown.ts:128-139 | A destination ending in a backslash is read past its end |
| MarkdownDestination.QuoteMarkerIsReturned | scripts/markdown.ts:113-128 | For a definition in a block quote whose destination is on the next line, the quote marker is returned instead |
| MarkdownSplice.Project | scripts/project-doc-site.ts:197-201 | The loop applies the replacements from the last start to the first |
| MarkdownSplice.BackwardIsSubstitution | scripts/project-doc-site.ts:197-201 | Applied back to front, each replacement leaves the earlier ranges where they were |
| MarkdownSplice.ProjectIsSubstitution | scripts/project-doc-site.ts:157-201 | In whatever order disjoint replacements were found, the result is their simultaneous substitution with all other text unchanged |
| MarkdownSplice.DisjointRangesMark | scripts/project-doc-site.ts:180-186 | Disjoint ranges of a text mark it, with stretches that are apart if the starts differ |
| MarkdownSplice.ProjectSubstitutes | scripts/project-doc-site.ts:157-201 | For every text and every list of replacements inside it that start apart and do not overlap, in any order, the result is their simultaneous substitution |
| MarkdownRewrite.RewriteMarkdown | scripts/project-doc-site.ts:157-201 | The whole function: one replacement per node, applied from the last to the first, or the error of a node without a destination |
| MarkdownRewrite.ScanIsBehindLabel | scripts/markdown.ts:106-140 | What the scanner returns lies inside the node, behind its label |
| MarkdownRewrite.RewriteSubstitutes | scripts/project-doc-site.ts:157-201 | For nodes that are disjoint or nested in labels, the result is the simultaneous substitution of all scanned destinations |
| MarkdownRewrite.OwnDestinationsAreReplaced | scripts/project-doc-site.ts:180-201 | If every node is written as the scanner reads it, what is replaced is each node's own destination |
| CommentCoverage.CommentRanges | scripts/markdown.ts:219-234 | The two loops give every line the column ranges of the comments that touch it |
| CommentCoverage.HasTextOutsideComments | scripts/markdown.ts:238-248 | The sweep keeps a line iff it has no ranges or its visible text is not blank |
| CommentCoverage.SweepIsPointwise | scripts/markdown.ts:240-247 | For overlapping ranges in start order, something visible remains iff some non-white column is in no range |
| CommentCoverage.LineInSource | scripts/markdown.ts:220-234 | The running offset is where a line's characters stand in the source |
| CommentCoverage.TouchedIsHeld | scripts/markdown.ts:222-229 | A comment touches a line iff it holds one of its characters or, if it is empty, the line break at its place |
| CommentCoverage.KeptIffShown | scripts/markdown.ts:203-248 | With the ranges of the first pass, a line is kept iff no comment touches it or one of its visible characters lies in no comment |
| CommentCoverage.ProseLines | scripts/markdown.ts:255-271 | Both passes: exactly the unfenced lines that show something, in order, with their numbers |
| DigestFraming.DigestFiles | scripts/client-build-environment.ts:293-300 | The updates feed the hash the framed stream of the files |
| DigestFraming.FrameBytes | scripts/client-build-environment.ts:295-298 | A frame is ASCII digits, a colon and the bytes |
| DigestFraming.StreamIsDecodable | scripts/client-build-environment.ts:293-300 | A decoder recovers the files from the stream |
| DigestFraming.StreamIsInjective | scripts/client-build-environment.ts:293-300 | Two lists of files feed the same bytes iff they are equal |
| WorkerPool.ClaimKeeps | scripts/publint-all.ts:208-213 | Taking an index gives that target exactly one owner |
| WorkerPool.SettleKeeps | scripts/publint-all.ts:213 | Storing a result trades the owner for the target's own report |
| WorkerPool.Pool.Step | scripts/publint-all.ts:208-215 | One worker's move to its next await, with the whole new state; every move lowers the measure |
| WorkerPool.AllReported | scripts/publint-all.ts:217-221 | With all workers returned every target has its own report |
| WorkerPool.RunAll | scripts/publint-all.ts:204-222 | Under every schedule of `concurrency` workers, moving one at a time until all have returned, the reports come out full in target order and each index is taken once, in order; the missing-result error is reached iff there is no worker and some target |
| WorkerPool.CrewIsKept | scripts/publint-all.ts:204-216 | At every moment of it there are `concurrency` workers, and none has returned while there is a target to take |
| Concurrency.ParseOfDecimal | scripts/publint-all.ts:67 | Parsing undoes printing |
| Concurrency.ParseIntReads | scripts/run-gates.ts:166 | `parseInt` reads the number a text starts with, behind white space and with its sign, and is NaN if there is none |
| Concurrency.PublintConcurrency | scripts/publint-all.ts:62-75 | The count is the smaller of targets and processors, or of targets and what the environment says; exactly the plain decimal texts of positive safe integers are accepted |
| Concurrency.LintAll | scripts/publint-all.ts:236-240 | Whatever the environment says, an accepted count gives every target its report |
| Concurrency.ConcurrencyFromEnv | scripts/run-gates.ts:163-171 | Accepts exactly the texts that start with a positive safe integer, and takes that |
| Concurrency.SuffixIsDropped | scripts/run-gates.ts:163-171 | A number with anything but a digit after it is accepted here and not there |

## Left out

- SchemaWalk.Walker.Visit: a schema expression is given as its unwrapped calls, and an element `X.Config` with the package it is imported from; the texts of violations carry no location.
- SchemaMeaning.SeesAllIff: nested primitives, unions, intersections and dictionaries hold no paths, as the script documents; a refinement is taken to add no keys; which names stand for the schema library is given.
- SchemaCheck.CheckEntry: one entry at a time, with its config type given; the two messages about an entry without one are not modelled.
- PathMeaning.TypeSound: depth-bounded, which `PathTermination.TypeFuel` and `TypeEnds` show to be immaterial on bounded worlds; the guard set is passed along as a value instead of being mutated.
- PathMeaning.TypeTruth: type operators are `readonly`, optional members count as members, what lies below a method or accessor is left open and an override keeps what it overrides, and type parameters or local names shadow no declaration and none of the wrapper names; module augmentations are not modelled.
- PathMeaning.DeclTruth: outside plain worlds agreement with the repaired walk is sufficient only; the exact condition there is `PathPrecision.ScriptRightIff`, on worlds where no declaration refers back to itself.
- PathTermination.TypeEnds: the potential is sufficient, and on cycles of aliases necessary (`PathDivergence.BoundedCyclesAddNothing`); elsewhere a walk without one may still end, depending on its path.
- Exports.SearchIsExact: files that fail to load are modelled as a thrown outcome of the whole search, and namespace re-exports as statements that name no type.
- Makespan.MakespanBound: that no executed gate waits for a skipped one is sufficient only, as `AfterEdges.HarmlessWait` shows; the exact conditions are `BoundExactness.BoundIffPhasesChained` and `EveryExecutor.BoundAlwaysIff`. Durations are integers and a skip takes no time.
- Scheduler.RunGates: an executor is a function from gate id to status; output and rejected promises are not modelled, and durations only in `RunRecords` and `Makespan`.
- RescopeFile.Rewrite: which files are rescoped at all and the exact edits of lines 172-490 are not modelled; the generic skips are a parameter.
- MarkdownDestination.DestinationRecovered: labels are balanced or escaped text; code spans and HTML inside labels that hide unbalanced brackets are not described.
- MarkdownRewrite.RewriteMarkdown: which nodes are rewritten and to what target is given.
- Concurrency.PublintConcurrency: `parseInt` is modelled on exact integers; what it rounds is beyond the safe ones and refused.
- MarkdownSplice.ProjectIsSubstitution: two empty ranges at one position are excluded; an empty destination is never replaced.
- ProjectFaces.CollectViolations: paths are given resolved; `FaceMessages` renders and sorts what it finds, with `JSON.stringify` as a parameter.
- TopoSort.TopoSort: `localeCompare` is any total order on strings.
- DigestFraming.DigestFiles: the list of files is given; the error for an empty list and the hash itself are not modelled.
- CommentCoverage.KeptIffShown: the comment intervals are given; finding `<!--` and `-->` inside an HTML node is not modelled.
- ShellQuote.CommandRoundTrip: reads fields only; a first field with an equals sign would be an assignment to a shell.
- Publication.PublicationIsSafe: `npm publish --tag` sets only that tag, and a registry command is atomic.
- Characters are Unicode scalar values rather than UTF-16 code units.
- Gate lists, environment parsing, log output, prompts, git, tar and child processes.
- `stageInternalDependencies`, `validateInternalDependencyPins` and the other manifest checks of scripts/publish-npm-baseline.ts: field comparisons with no algorithm behind them.
- `exactEditState` and the edits it classifies: applying a pending edit need not make it applied, since occurrences can form across the edit's boundary.
- `spliceRegion` of scripts/gen-cordis-catalog.ts, scripts/paired-markdown-derivatives.ts and scripts/archived-agent-notes.ts: slices, partitions and append-only records.
- The catalog and diagram renderers, the web demo, and the Python wheel and executable builders.
