# Awo framework: a verified model of its ordering, query, naming, migration and audit logic

Awo compiles entity definitions into an ordered schema, SQL and migration plans, and runs
mutations through a staged pipeline. This project models the parts of it whose correctness is hard
to see from one function, and proves what the framework promises about them. The Go code that
updates variables in place is modelled by methods and classes with loops; every such method is
proved against a declarative specification, and the promises are lemmas about that specification.
Rules that an operation takes from a small helper (which categories propagate, what a token prints,
which fields are links, how a file is named, when versions are compatible) are stated in the fields
themselves, by predicates that no operation calls.

| files | part of the framework |
|---|---|
| `Names`, `Digraph`, `Kahn`, `Decimal` | shared theory: Go's string order and sorting, paths and cycles, Kahn's algorithm, `%0*d` |
| `SchemaDefs`, `CycleSearch`, `DependencyGraph`, `DepGraph`, `Generator` | the compiler's two dependency graphs and the order of generated migrations |
| `ModuleRegistry` | module manifests, registration with rollback, load order |
| `MigrationSort`, `MigrationSteps`, `MigrationFiles`, `MigrationPlan` | migration sources, scripts, global versions, up and down plans |
| `SqlCondition`, `ReportSql`, `ReportCorrect` | the report generator's filter compiler |
| `QueryBuilder` | the chained builder over aliased slices |
| `NamingPattern`, `NamingSeries`, `NamingRuns` | naming series: patterns, rendering, concurrent allocation |
| `AuditTransaction`, `AuditRuns` | mutation, audit record and hooks in one transaction, and transactions in flight together |
| `Fingerprint`, `FingerprintText`, `Export` | the lines and bytes behind schema fingerprints, paged export |

`dafny verify dfyconfig.toml` checks everything.

Modelling conventions. A Go map is a `map` or `set`, and iteration picks keys with `:|`, so a result
proved equal to a function of the input does not depend on iteration order. Strings are compared
character by character, which for valid UTF-8 is Go's byte order. Integers are unbounded.
`sort.Strings` and `sort.Slice` are a sorting function whose result is proved to be the only sorted
arrangement wherever keys have no ties. A panic, an error return and a recovered panic are values.

Where the code and its comments disagree the model follows the code:

- awo/compiler/graph.go:201 says every node Kahn's pass leaves unvisited is part of a cycle. It is
  on a cycle or reachable from one (`UnvisitedIff`, `UnvisitedOffCycle`).
- awo/compiler/graph.go:161 and 212 speak of all cycles, or one per strongly connected component.
  The search goes from each node to the first target, by name, that has a cycle ahead; exactly the
  cycles along these choices are reported (`ReportedIff`). A cyclic component from which no other can
  be reached has a cycle in the list (`SinkComponentReported`); one that refers into another need not
  (`FirstOfTwoCyclesMissed`). A cycle can be listed twice (`SecondOfTwoCyclesTwice`): no starting order
  does so exactly when every node with a cycle behind and ahead of it lies on one along these choices
  (`NeverTwiceIff`).
- awo/naming/pattern.go:7 documents `PAY-{YYYYMM}-{000001}`; among digit placeholders exactly the runs
  of zeros are accepted, whatever comes before them (`DigitPlaceholderIff`, `DigitsRejectedAnywhere`,
  `DocumentedPatternRejected`). The counter key that `CounterKey` in pattern.go describes is not the
  one the service uses.
- A naming pattern gives unique identifiers exactly when it has a sequence token and shows the
  four-digit year and the month, because the counter restarts every month (`UniqueIff`).
- A filter with an empty IN list, or with an empty AND or OR below the top, prints text that is not
  SQL; an empty OR at the top drops its clause and so keeps every row (`ValidSqlIff`,
  `ClauseMeansIff`). Field names lose their double quotes: a leaf is read as written exactly when its
  field has none (`LeafFaithfulIff`). For whole trees there is no such equivalence, since a tree can be
  true of every row either way (`QuotedTautology`).
- `And` and `Or` overwrite the caller's slice unless its nil entries come last
  (`CompactedUnchangedIff`).
- An export with a page size above 200, and so with the default of 500, stops after 200 records
  (`ExportAll`).
- The failure policy says that outside ADMIN and SECURITY an audit failure lets the mutation succeed.
  Counting panics, which nothing recovers, that holds exactly when nothing would be written
  (`IndifferentIff`); without panics also when a failed insert leaves the transaction able to commit,
  which PostgreSQL does not allow (`IndifferentToErrorsIff`).
- Where the transaction's connection cannot execute the insert the writer falls back to one that
  commits on its own, and then a mutation that is rolled back keeps its audit row (`NoOrphansIff`).
- Names of migration files sort as versions do exactly for ranges of priorities without negative ones
  that stay below 1000 or within one number of digits (`OrderedBetweenIff`); for two files this depends
  on their leading digits, and for negative versions the other way round (`NameOrderIff`). The
  topological order plays no part in versions (`RunsBeforeIff`, `DependencyBuiltLater`).
- The audit log takes the operation from which snapshots are missing, so that an update or delete of a
  record without data is logged as something else (`OperationLoggedIff`).
- `WithTx` defers no rollback, so that a panic of the audit writer leaves the transaction hanging, and
  exactly such a panic does (`EndsAsDecided`).
- Fingerprints tell schemas apart, up to order and display data, as long as no action grant is empty or
  named like one of the four operations and no text contains the separators (`HashedBytesIff`). Otherwise
  they may not (`CreateGrantIsAmbiguous`, `EmptyGrantIsSilent`, `CommaIsAmbiguous`).

## Model

| member | source | states |
|---|---|---|
| `CompilerGraph.DependencyGraph.DetectCycles` | awo/compiler/graph.go:164-255 | empty if and only if the graph without self-loops is acyclic; each reported sequence is a simple cycle along the search's choices; from every node with a cycle behind and ahead of it the search arrives at a reported one; the list is that of the searches from the unvisited nodes in some order, and lists none twice if each node between cycles lies on one of its own |
| `CycleSearch.NeverTwiceIff` | awo/compiler/graph.go:213-254 | no starting order lists a cycle twice if and only if every node with a cycle behind and ahead of it lies on a cycle along the search's choices |
| `CycleSearch.SecondOfTwoCyclesTwice` | awo/compiler/graph.go:213-254 | a graph and a starting order for which a cycle is listed twice |
| `CycleSearch.OwnCycle` | awo/compiler/graph.go:219-252 | a search that starts on a cycle along its choices lists exactly that cycle and marks exactly its nodes |
| `CompilerGraph.CycleTracer.Trace` | awo/compiler/graph.go:215-252 | one pass of the loop over starting nodes: nothing for a marked node, a mark for one without a cycle ahead, otherwise the loop of the path from it and marks along the path |
| `CycleSearch.ReportedIff` | awo/compiler/graph.go:212-254 | a simple cycle is in the list, wherever it starts, if and only if each of its steps goes to the first target that has a cycle ahead |
| `CycleSearch.SinkComponentReported` | awo/compiler/graph.go:212-254 | a cyclic component from which no other cyclic component can be reached has one of its own cycles in the list |
| `CycleSearch.FirstOfTwoCyclesMissed` | awo/compiler/graph.go:212-254 | a graph of two components whose first cycle is never reported, whatever the starting order |
| `CompilerGraph.CycleTracer.Dfs` | awo/compiler/graph.go:222-250 | terminates; a search that finds nothing restores path and trace and proves that no cycle can be reached from the node; a hit has followed the search's choices to where they repeat, lists the cycle they close and marks the nodes it came through |
| `CompilerGraph.CycleTracer.CloseCycle` | awo/compiler/graph.go:226-237 | the part of the path from the repeated node on is a simple cycle that starts there |
| `CompilerGraph.DependencyGraph.Visited` | awo/compiler/graph.go:168-199 | the visited set is the least dependents-first order, although targets are decremented in map order |
| `CycleSearch.UnvisitedIff` | awo/compiler/graph.go:201-207 | a node stays unvisited if and only if it lies on a cycle or can be reached from one |
| `CycleSearch.UnvisitedOffCycle` | awo/compiler/graph.go:201-207 | a three-node graph in which an unvisited node is on no cycle |
| `CycleSearch.UnvisitedFacts` | awo/compiler/graph.go:201-210 | the unvisited nodes are empty exactly on acyclic graphs, closed under edges, and otherwise lead to a cycle |
| `CompilerGraph.InDegrees` | awo/compiler/graph.go:168-177 | in-degree counts number the sources of each node, for every iteration order |
| `CompilerGraph.DependencyGraph.DependentsFirst` | awo/compiler/graph.go:260-291 | the queue loop produces the least dependents-first order |
| `CompilerGraph.DependencyGraph.TopologicalSort` | awo/compiler/graph.go:259-302 | succeeds if and only if the graph is acyclic; then a permutation of the nodes, dependencies first, whose reversal is the least dependents-first order |
| `CompilerGraph.Reverse` | awo/compiler/graph.go:298-300 | swapping from both ends yields the reversal |
| `CompilerGraph.DependencyGraph.AddEntity` | awo/compiler/graph.go:55-102 | one entity adds exactly its known targets other than itself as edges, its self-reference as a mark, and a diagnostic under the name of each field or edge whose target is unknown, and no other |
| `CompilerGraph.BuildDependencyGraph` | awo/compiler/graph.go:46-127 | n depends on t if and only if t is a known name other than n and some entity named n has a Link or LinkList field or an edge whose non-empty target is t; exactly the fields and edges with an unknown target are diagnosed, by name; no diagnostics if and only if there is no such target and no cycle joins two or more entities; then the stored order has dependencies first; the branch for a failed sort is never reached, and the cycles diagnosed are those the search finds |
| `SchemaDefs.ReferencesDeclared` | awo/compiler/graph.go:63-101 | the references collected from an entity are exactly the Link and LinkList fields and the edges that name a target |
| `CompilerGraph.OrderIgnoresRegistration` | awo/compiler/graph.go:46-127 | two registration orders of the same entities give the same topological order |
| `CycleSearch.KahnDecides` | awo/compiler/graph.go:293-295 | a dependents-first order covers all nodes if and only if the graph is acyclic |
| `Kahn.LeastOrderIsLeast` | awo/compiler/graph.go:278-291 | the order that always takes the smallest ready name is lexicographically least among all complete orders |
| `Kahn.LeastOrderUnique` | awo/compiler/graph.go:278-291 | a graph has only one such order, so map iteration cannot change the result |
| `Kahn.PopHead` | awo/compiler/depgraph.go:86-90 | the head of the sorted queue is the smallest ready node, and taking it keeps counters and queue in step |
| `Kahn.DrainOne` | awo/compiler/depgraph.go:95-101 | one decrement, with queueing at zero, keeps counters and queue in step with what is placed |
| `Digraph.GreedyOrderComplete` | awo/compiler/depgraph.go:104-107 | an order that nothing can extend covers all nodes if and only if all targets are nodes and there is no cycle |
| `LinkGraph.Build` | awo/compiler/depgraph.go:20-38 | n depends on t if and only if some entity named n has a Link or LinkList field with the non-empty target t, n itself and unknown names included; edges do not count |
| `LinkGraph.DepGraph.DependsOn` | awo/compiler/depgraph.go:41-57 | true if and only if a path of at least one edge leads from the first entity to the second, on cyclic graphs too |
| `LinkGraph.DepGraph.DfsReach` | awo/compiler/depgraph.go:46-57 | a failed search leaves a marked set that edges cannot leave and that avoids the target |
| `LinkGraph.DepGraph.TopologicalOrder` | awo/compiler/depgraph.go:63-108 | succeeds if and only if all targets are entities and nothing reaches itself; then the least dependencies-first order of all entities |
| `LinkGraph.DepGraph.Dependents` | awo/compiler/depgraph.go:111-138 | the strictly sorted list of exactly the entities from which the given one can be reached |
| `Generator.Compile` | awo/compiler/schema.go:335-388 | accepts if and only if no target is unknown and the graph is acyclic; the schema it returns has an index and an order that fit its entities |
| `Generator.Generate` | awo/generator/generator.go:51-106 | for any schema: infrastructure first, then one file per emitted entity with consecutive numbers; fails only when some entity's DDL does |
| `Generator.EmittedCovers` | awo/generator/generator.go:56-81 | for any schema, whatever its order misses, only system entities are emitted and every system entity's name is |
| `Generator.AcceptedInOrder` | awo/generator/generator.go:65-81 | for an accepted schema the defensive loop and the branch without an order add nothing |
| `Generator.EmittedOnce` | awo/generator/generator.go:58-64 | from an accepted schema every system entity is emitted exactly once and no custom entity is |
| `Generator.ReferredEmittedEarlier` | awo/generator/generator.go:48-49 | from an accepted schema every system entity that a link field or an edge of an emitted entity names, other than itself, is emitted before it |
| `ModuleRegistry.Registry.Register` | awo/module/registry.go:32-53 | succeeds if and only if the name is non-empty, new, and adds no cycle; any failure leaves the registry unchanged |
| `ModuleRegistry.Registry.DetectCycle` | awo/module/registry.go:95-120 | reports a cycle if and only if the registered modules have one, with repeated DependsOn entries and unregistered targets |
| `ModuleRegistry.Kahn` | awo/module/registry.go:210-240 | the count is the length of the first-in first-out order of the multigraph |
| `ModuleRegistry.Registry.Adjacency` | awo/module/registry.go:97-113 | successor lists and in-degrees count every repeated dependency entry |
| `ModuleRegistry.Registry.Validate` | awo/module/registry.go:126-142 | no error if and only if every dependency is registered at a version with the required major number and a larger minor number, or the same and no smaller patch number; a reported error names a dependency that fails |
| `ModuleVersions.LessIsOrder` | awo/module/manifest.go:53-71 | versions are ordered by major, minor and patch number in turn: no version is less than itself, of two different ones exactly one is less, and the order is transitive |
| `ModuleRegistry.Registry.Resolve` | awo/module/registry.go:63-206 | fails only for a dependency that is missing or whose version has another major number or is older than required, never with a cycle; otherwise every manifest once, after its dependencies, in an order the manifests alone determine |
| `FifoKahn.FifoOrderUnique` | awo/module/registry.go:161-188 | the first-in first-out order with sorted batches is unique for a graph |
| `ModuleRegistry.RunsStayConsistent` | awo/module/registry.go:32-53 | after any sequence of Register calls the registered modules are acyclic |
| `ModuleRegistry.AllAcceptedIffAcyclic` | awo/module/registry.go:32-53 | modules with distinct names are all accepted if and only if together they are acyclic, whatever the order |
| `MigrationSort.TopoSort` | awo/migration/migration.go:332-382 | panics exactly when a dependency is missing or the modules form a cycle; otherwise each module once after its dependencies, in the search order; when every dependency has a smaller priority, or the same and a smaller name, the result is the sources ascending by priority and then by name |
| `MigrationSort.SearchOrderUnique` | awo/migration/migration.go:351-381 | the search order is unique: each next module is where one arrives from the first unplaced source, by priority and name, by going to ever the first unplaced dependency by name |
| `MigrationSort.OrderIgnoresRegistration` | awo/migration/migration.go:332-382 | two registration orders of the same sources give the same result |
| `MigrationSort.RegisteredIff` | awo/migration/migration.go:333-336 | of several sources with one name the last is the registered one |
| `MigrationSort.Sorter.Visit` | awo/migration/migration.go:351-368 | a panic proves a cycle; a return places the module after its dependencies, each where the search order wants it, and keeps the stack a descent to the first unplaced dependencies |
| `MigrationSort.FindMissing` | awo/migration/migration.go:338-344 | reports a missing dependency if and only if there is one |
| `MigrationSort.EachSourceOnce` | awo/migration/migration.go:370-381 | with distinct module names the result is a permutation of the sources |
| `MigrationSort.SortedIsInLine` | awo/migration/migration.go:370-380 | with ascending keys, key order already places dependencies first |
| `MigrationSteps.ReadSteps` | awo/migration/migration.go:256-298 | fails exactly when the directory cannot be listed, a script is unreadable or a number has no up text; otherwise one step per number, strictly ascending in 1 to 999, with the last text of each direction and the first description |
| `MigrationSteps.ScriptOfIff` | awo/migration/migration.go:263-270 | an entry is read as a script if and only if it is a file whose name is a number from 1 to 999 in digits, perhaps after a plus sign, an underscore, the description and .up.sql or .down.sql |
| `MigrationSteps.FileNameIff` | awo/migration/migration.go:301-328 | the same of the name alone, both directions |
| `MigrationSteps.FileNameReadsBack` | awo/migration/migration.go:301-328 | a name built from number, description and direction parses back to them, for every description and padding |
| `MigrationFiles.BuildFSFrom` | awo/migration/migration.go:110-139 | builds if and only if every dependency is registered, none is circular, every directory can be read and no two modules share priority and step number; each failure is genuine; then every file is named by a number that reads priority times 1000 plus step number of a registered module's step, with the step's up text under .up.sql and its down text under .down.sql, and every such step has its files |
| `MigrationFiles.AddSteps` | awo/migration/migration.go:123-136 | stops exactly when a version is already used, else adds the module's files and versions |
| `MigrationFiles.CollisionIffShared` | awo/migration/migration.go:113-128 | versions collide if and only if two modules share priority and step number |
| `MigrationFiles.FilesHoldSteps` | awo/migration/migration.go:130-135 | without a collision no script overwrites another: every step's texts are found under its names, and every file is some step's script |
| `MigrationFiles.FilesAreDirectory` | awo/migration/migration.go:123-136 | without a collision every file is named by a number that reads priority times 1000 plus step number, the module, the description and .up.sql or .down.sql, with the up text in the one and the down text in the other, and every supplied step has its file or files |
| `MigrationFiles.NameOrderIff` | awo/migration/migration.go:130-133 | of any two scripts the one with the smaller version is named first if and only if it alone is negative, or both are not and show equally many digits or it is smaller than the leading digits of the larger, or both are negative and the opposite holds of their digits |
| `MigrationFiles.NamesInVersionOrder` | awo/migration/migration.go:130-133 | for versions 0 to 999999 file names sort as versions do |
| `MigrationFiles.OrderedBetweenIff` | awo/migration/migration.go:124-133 | the names of all scripts of modules with priorities lo to top sort as their versions do if and only if the range is empty, or lo is not negative and top is at most 999 or has as many digits as lo |
| `MigrationFiles.BoundaryMisordered` | awo/migration/migration.go:124-133 | where the number of digits grows, script 999 of a one-script module below the first priority with as many digits as top and script 1 of one at it have ascending versions and descending names |
| `MigrationFiles.NegativeMisordered` | awo/migration/migration.go:124-133 | at every negative priority scripts 1 and 2 of two one-script modules have ascending versions and descending names |
| `MigrationFiles.DependenciesVersionedFirst` | awo/migration/migration.go:124 | with priorities ascending along dependencies, every step of a transitive dependency has a smaller version than any step of its dependent |
| `MigrationFiles.ListScripts` | awo/migration/migration.go:110-212 | what a driver lists of the built directory: all its names in order; with priorities in a safe range, such as 0 to 999, positions follow versions, and if priorities ascend along dependencies every script of a dependency stands before its dependents' |
| `MigrationFiles.RunsBeforeIff` | awo/migration/migration.go:124 | all steps of one module have smaller versions than another's if and only if one has no steps, its priority is smaller, or priorities are equal and its last number is below the other's first |
| `MigrationFiles.DependencyBuiltLater` | awo/migration/migration.go:110-139 | a list that can be built although a module's script has a smaller version than its dependency's |
| `MigrationFiles.MemDir.ReadDir` | awo/migration/migration.go:187-212 | successive calls return consecutive pieces of the sorted listing; end of file exactly when a positive count meets an exhausted listing |
| `MigrationPlan.BuildPlan` | awo/migration/planner.go:20-83 | up selects exactly the versions above current up to the target, ascending; down those above target up to current, descending; an error exactly for a down target above current |
| `MigrationPlan.SelectUp` | awo/migration/planner.go:33-42 | the early exit loses no step in range |
| `MigrationPlan.SelectDown` | awo/migration/planner.go:56-65 | the early exit loses no step in range |
| `MigrationPlan.UpPlansCompose` | awo/migration/planner.go:29-50 | going up through any midpoint up to the target runs the same steps and ends at the same version as going directly |
| `MigrationPlan.DownUndoesUpIff` | awo/migration/planner.go:52-82 | rolling back from where an up plan ended visits the same versions in reverse and ends at the start if and only if up and down scripts are paired in that range |
| `ReportSql.FilterBuilder.Build` | awo/report/report.go:391-461 | fails exactly on unsupported trees; otherwise prints the tree with parameters numbered on from the builder's counter and appends exactly their values |
| `ReportSql.FilterBuilder.BindAll` | awo/report/report.go:445-448 | an IN list binds its values in order to consecutive placeholders |
| `ReportCorrect.CompiledFaithfully` | awo/report/report.go:391-461 | the printed condition, parsed under SQL precedence and evaluated with its arguments in three-valued logic, has on every row the truth value of the tree, its columns read without double quotes, for any tree without empty lists |
| `SqlCondition.AmongIff` | awo/filter/filter.go:106-116 | a filter on a list of values is true when some value compares equal and false when every one compares unequal |
| `SqlCondition.BetweenIff` | awo/filter/filter.go:99-104 | a filter on a range is true when both comparisons are and false when one of them is |
| `SqlCondition.AllTrueIff` | awo/filter/filter.go:182-193 | a conjunction is true when every part is and false when some part is |
| `SqlCondition.SomeTrueIff` | awo/filter/filter.go:195-206 | a disjunction is true when some part is and false when every part is |
| `SqlCondition.Connectives` | awo/filter/filter.go:182-214 | in three-valued logic AND is the lower of two truth values, OR the higher, and NOT turns the scale round |
| `ReportCorrect.ValidSqlIff` | awo/report/report.go:391-461 | the text of a supported tree is a valid condition if and only if no IN list, AND or OR in it is empty |
| `ReportCorrect.ClauseMeansIff` | awo/report/report.go:321-332 | for every supported tree without double quotes in field names, the clause as written or left out means the tree if and only if the tree has no empty list or is the empty AND; with double quotes the same holds of the tree without them |
| `ReportCorrect.LeafFaithfulIff` | awo/report/report.go:357-361 | a leaf has its own truth value on every row of every database if and only if its field name has no double quote |
| `ReportCorrect.UnquotedSplits` | awo/report/report.go:357-361 | a double quote vanishes from an identifier and the text around it stays |
| `ReportCorrect.QuotedTautology` | awo/report/report.go:357-361 | a tree with double quotes that is true of every row either way, so no such equivalence holds for trees |
| `ReportCorrect.PrintedParams` | awo/report/report.go:381-385 | started at n, the builder emits exactly n+1 to n+k in order, k being the number of values it binds |
| `ReportCorrect.BuildFilterSQL` | awo/report/report.go:366-373 | an absent filter gives an empty text; otherwise fails exactly on unsupported trees |
| `ReportCorrect.GenerateSQL` | awo/report/report.go:267-346 | WHERE, HAVING, LIMIT and OFFSET take consecutive parameters in this order and the arguments follow suit; fails exactly on unsupported trees |
| `ReportCorrect.QueryPlaceholders` | awo/report/report.go:267-346 | read left to right the placeholders of a query are $1 to $len(args), each once |
| `ReportCorrect.QueryMeans` | awo/report/report.go:267-346 | in a whole query WHERE and HAVING mean their trees under exactly that condition, and LIMIT and OFFSET are bound to their own values |
| `QueryBuilder.NonNilFilters` | awo/filter/filter.go:249-257 | the result is the non-nil entries in order, written over the front of the argument's own array and nowhere else |
| `QueryBuilder.CompactedUnchangedIff` | awo/filter/filter.go:249-257 | the argument survives if and only if no nil precedes a filter |
| `QueryBuilder.And` | awo/filter/filter.go:184-193 | the conjunction of the non-nil entries, sharing the argument's array when there are two or more |
| `QueryBuilder.Builder.Clone` | awo/filter/builder.go:152-166 | an equal builder over a fresh array without spare capacity |
| `QueryBuilder.Builder.Where` | awo/filter/builder.go:94-101 | nil returns the same builder; otherwise a fresh one with the predicate added, nothing existing changed |
| `QueryBuilder.Builder.OrderBy` | awo/filter/builder.go:104-108 | a fresh builder with the clause appended |
| `QueryBuilder.Builder.Limit` | awo/filter/builder.go:112-116 | a fresh builder with the limit replaced |
| `QueryBuilder.Builder.Offset` | awo/filter/builder.go:119-123 | a fresh builder with the offset replaced |
| `QueryBuilder.Builder.TakeFilter` | awo/filter/builder.go:127-129 | the conjunction of the builder's predicates; the in-place compaction leaves its array as it was |
| `QueryBuilder.Chain` | awo/filter/builder.go:88-166 | after any chain of calls on any earlier builders, filters returned on the way passed to Where included, every builder is still what its calls say and every returned filter is still the conjunction of its predicates |
| `NamingPattern.ParsePattern` | awo/naming/pattern.go:54-85 | the loop returns the token list of the grammar, or its first error |
| `NamingPattern.PlaceholderIff` | awo/naming/pattern.go:87-114 | a text is accepted as a token if and only if it is the token's own spelling or, for a sequence of width 1 to 20, SEQ: and digits denoting that width |
| `NamingPattern.ParseWidth` | awo/naming/pattern.go:116-131 | accepts exactly digit strings denoting 1 to 20 |
| `NamingPattern.RoundTrip` | awo/naming/pattern.go:54-143 | a normal token list, spelled out, parses back to itself |
| `NamingPattern.ParsedIsNormal` | awo/naming/pattern.go:54-85 | the parser returns only normal lists: literals non-empty, without an opening brace, never adjacent; widths positive |
| `NamingPattern.NormalIff` | awo/naming/pattern.go:54-143 | a list is normal if and only if some pattern parses to it, and if and only if its own spelling does |
| `NamingPattern.DigitPlaceholderIff` | awo/naming/pattern.go:109-112 | a digit placeholder is accepted if and only if it is all zeros, and then stands for a sequence as wide as it is long |
| `NamingPattern.DigitsRejectedAnywhere` | awo/naming/pattern.go:54-85 | a pattern that has a digit placeholder other than a run of zeros is rejected, whatever text comes before and after it |
| `NamingPattern.DocumentedPatternRejected` | awo/naming/pattern.go:7 | the documented pattern PAY-{YYYYMM}-{000001} is rejected |
| `NamingPattern.ParseAfter` | awo/naming/pattern.go:54-85 | after a normal list that ends with a placeholder the parser goes on with what follows |
| `NamingSeries.Render` | awo/naming/pattern.go:163-201 | the result is the parts of the tokens in turn: the digits that read the year, the last two of it, the month, the day or the sequence number at the token's width, the fiscal label or FY and the year, the organisation code, or the literal text |
| `NamingSeries.RenderWithoutSEQ` | awo/naming/service.go:141-155 | the rendering with every sequence token empty |
| `NamingSeries.TokensAgreeAll` | awo/naming/pattern.go:163-201 | equal identifiers agree token by token, although several sequence tokens vary in width |
| `NamingSeries.SequenceDetermined` | awo/naming/pattern.go:192-197 | an identifier of a pattern with a sequence token determines the sequence number |
| `NamingSeries.PeriodDetermined` | awo/naming/pattern.go:174-189 | an identifier that shows year or month determines it |
| `NamingSeries.KeyDecodes` | awo/naming/service.go:88-93 | the counter key determines tenant, prefix, year and month |
| `NamingSeries.Service.CachedParse` | awo/naming/service.go:119-137 | the answer is that of a fresh parse, the cache holds it afterwards, and every cached list stays what a fresh parse returns |
| `NamingSeries.Service.Allocate` | awo/naming/service.go:67-103 | takes the next value of the counter under a key that shows tenant, prefix and month, and returns an identifier whose parts show organisation, fiscal label, date and that value; the parsed pattern is cached; a bad pattern or a failed counter changes no counter, and a lost reply takes one value |
| `NamingSeries.SameIdentifierSameCount` | awo/naming/service.go:85-102 | equal identifiers that show the period come from one counter at one value |
| `NamingRuns.StepKeepsInv` | awo/naming/service.go:67-137 | every atomic step, lost replies included, keeps the cache correct, each call on its own tokens, and counter values taken once each without gaps |
| `NamingRuns.RunsAreSound` | awo/naming/service.go:67-137 | the same after every interleaved run from any counters |
| `NamingRuns.AloneAllocates` | awo/naming/service.go:67-103 | the steps of one call without interleaving do what Allocate promises |
| `NamingRuns.UniqueIff` | awo/naming/service.go:67-103 | over all interleaved runs, tenants and patterns mixed: the identifiers of all patterns with the same tokens, for one tenant, organisation and fiscal label, never repeat if and only if the tokens include a sequence and show four-digit year and month; exactly then do those of the one pattern never repeat |
| `NamingRuns.NormalUniqueIff` | awo/naming/pattern.go:54-143 | the same condition for any normal token list, through its spelling |
| `NamingRuns.SeriesIsolated` | awo/naming/service.go:85-95 | calls that share a counter agree on tenant, prefix and month and never take the same value |
| `AuditTransaction.EntityService.Write` | awo/audit/transactional_writer.go:110-245 | loads the flag once; writes into the transaction if it can, else through the fallback; errors and panics exactly as validation, marshalling and insertion decide |
| `AuditTransaction.EntityService.RunAuditRecord` | awo/runtime/pipeline.go:337-371 | an unaudited entity writes nothing; a failure surfaces if and only if the entity is registered under the category ADMIN or SECURITY |
| `AuditTransaction.EntityService.RunHooks` | awo/runtime/pipeline.go:471-478 | passes if and only if every hook returned without error or panic |
| `AuditTransaction.EntityService.RunAfter` | awo/runtime/pipeline.go:171-194 | passes if and only if the entity is known, its own hooks pass and, except on delete, the AfterSave hooks pass |
| `AuditTransaction.EntityService.Mutate` | awo/api/service/entity.go:67-83 | the durable effect of one request; commits if and only if the condition of CommitsIff holds, and then stores the entity, record and operation of the request |
| `AuditTransaction.CommitsIff` | awo/api/service/entity.go:67-83 | a mutation commits if and only if begin, persist and commit succeed, the entity is known, all its hooks and on create and update the AfterSave hooks pass, the writer did not panic, the record of an audited ADMIN or SECURITY entity was complete and written, and no failed insert spoiled the transaction |
| `AuditTransaction.EffectIff` | awo/audit/transactional_writer.go:110-245 | when the audit stage skips, refuses, writes in the transaction, writes outside it or panics, in terms of flag, registration, completeness of the record, outcomes and connections |
| `AuditTransaction.RecordsIff` | awo/runtime/pipeline.go:350-359 | the row of a request carries its entity, record id, registered category (DATA without a registration) and the operation its snapshots show |
| `AuditTransaction.IndifferentIff` | awo/audit/failure.go:44-63 | outside ADMIN and SECURITY no audit outcome, panics included, decides the commit of a registered entity's mutation if and only if the flag is off or nothing would be written for it |
| `AuditTransaction.IndifferentToErrorsIff` | awo/audit/failure.go:44-63 | without panics the same holds if and only if, besides, the insert happens outside the transaction or a failed statement leaves it able to commit |
| `AuditTransaction.OperationLoggedIff` | awo/runtime/pipeline.go:375-383 | the logged operation is the one that took place if and only if it is a create, or the record had data before and, for an update, after |
| `AuditRuns.AdvanceOk` | awo/api/service/entity.go:53-157 | every step of a transaction keeps what its phase says has happened, loads the flag at most once, and makes durable exactly what it then counts as stored |
| `AuditRuns.AuditedOnce` | awo/runtime/pipeline.go:323-371 | at every moment of every interleaved run: a mutation is stored exactly when its request has committed; no request has two rows; a committed mutation of an audited ADMIN or SECURITY entity with the flag on has exactly one; an uncommitted one has none unless the fallback is used |
| `AuditRuns.LogsMatch` | awo/runtime/pipeline.go:350-359 | in every run each audit row carries entity, record, category and the operation its snapshots show of the request it stems from, and each mutation the request's own |
| `AuditRuns.EndsAsDecided` | awo/contrib/pgx/repo.go:579-606 | however requests interleave, one that has ended has committed if and only if its own outcomes and the flag it saw meet the condition of CommitsIff, has left its transaction hanging if and only if the writer panicked, and saw the flag that all others see |
| `AuditRuns.MovesEnd` | awo/api/service/entity.go:53-157 | every request ends after at most six steps of its own |
| `AuditRuns.AloneMutates` | awo/api/service/entity.go:67-83 | the steps of one request without interleaving do what the service's mutation promises |
| `AuditRuns.NoOrphansIff` | awo/audit/transactional_writer.go:233-244 | no run over registered entities leaves an audit row of a request that ended without committing if and only if the transaction executes the insert, there is no fallback, or no registered entity has anything to write |
| `Fingerprint.WriteSchema` | awo/compiler/fingerprint.go:17-92 | the nested loops write the entities in name order, each with sorted fields, edges, actions and grants |
| `Fingerprint.WriteEntity` | awo/compiler/fingerprint.go:31-90 | one entity's lines in canonical order |
| `Fingerprint.ListingIgnoresOrder` | awo/compiler/fingerprint.go:33-68 | a sorted listing depends only on which lines each name has |
| `Fingerprint.StreamIgnoresOrder` | awo/compiler/fingerprint.go:17-92 | schemas that differ only in registration order, in the order of fields, options, edges, actions or grants, or in display data have the same stream |
| `Fingerprint.PermissionsIff` | awo/compiler/fingerprint.go:70-90 | grants print alike if and only if they are the same up to order, when no action grant is empty or named like one of the four operations |
| `Fingerprint.StreamIff` | awo/compiler/fingerprint.go:17-92 | under that condition and with distinct names the streams of two schemas are equal if and only if they differ only in order and display data |
| `FingerprintText.HashedBytesIff` | awo/compiler/fingerprint.go:17-92 | the same of the bytes that are hashed, when no name or label contains a colon, no option a comma, no text a line break, and no field type is named options or series |
| `FingerprintText.TextTells` | awo/compiler/fingerprint.go:31-90 | lines whose texts keep clear of the separators have different texts |
| `FingerprintText.FieldTexts` | awo/compiler/fingerprint.go:37-51 | the lines of a field in order: its name, type and five flags, its sorted options, its link target and its series, each part after a colon |
| `FingerprintText.OtherTexts` | awo/compiler/fingerprint.go:31-68 | the line of an entity, of an edge and of an action, part by part |
| `FingerprintText.GrantTexts` | awo/compiler/fingerprint.go:72-79 | one line for each subject of a grant, in order, with entity and grant |
| `Fingerprint.CreateGrantIsAmbiguous` | awo/compiler/fingerprint.go:70-90 | a create grant and a grant for an action named create write the same lines |
| `Fingerprint.EmptyGrantIsSilent` | awo/compiler/fingerprint.go:83-90 | an action granted to nobody writes nothing |
| `FingerprintText.CommaIsAmbiguous` | awo/compiler/fingerprint.go:39-44 | one option with a comma and two options have the same text |
| `Export.ExportAll` | awo/ioport/importer.go:444-464 | terminates; writes every record once in order if and only if the page size is 1 to 200 or there are at most 200 records, else the first 200 |
| `Export.ResolvedSize` | awo/driver/repository.go:217-233 | sizes from 1 to 200 are kept, larger ones become 200, smaller ones 20 |

## Left out

- Generated query wrappers under db/sqlc, and the Casbin, Temporal, Redis, cron, configuration and crypto adapters: plumbing around foreign libraries.
- SQL execution, JSON and CSV encoding, file access, SHA-256, clocks and UUID generation: inputs of the model or absent.
- Integer width: `int64`, `uint64` and `int` overflow in versions, counters and `parseWidth` is not modelled; integers are unbounded.
- Dates outside years 0 to 9999 and tenant ids that do not print as 36 characters are excluded from the naming theorems.
- DDL, SELECT, JOIN, GROUP BY and ORDER BY text, the table alias in column references, and filter kinds that the report generator rejects.
- The text inside ILIKE patterns: the comparison itself is a parameter of the row's environment.
- `Or` and `Not` in awo/filter/filter.go, and the read accessors of the query builder: `Or` differs from `And` only in its node kind.
- Before-hooks, validation, defaults and naming in the pipeline's create stage: `applyNamingSeries` returns early there because the record has no tenant yet, so nothing is claimed about names allocated by the pipeline.
- Nested WithTx calls, workflow triggers after commit, and statements of hooks on the database: a hook is one outcome.
- Sanitising, risk scoring and severity of audit records; a panic in them is the model's writer panic.
- Locks: the registry's and the query builder's operations are sequential; naming allocation and mutations are modelled under interleaving.
- `Report`, `Dependents` and `IsSelfRef` of the compiler graph, `Get` and `All` of the registry, `ParseVersion`: easy accessors.
- Generator.Compile: takes definitions with distinct qualified names, and leaves out link lookup, routes and grants.
- MigrationPlan.BuildPlan: when two steps of one direction share a version, their relative order is not specified.
- Fingerprint.WriteSchema: appends lines as values; their texts are `FingerprintText.Bytes`, and SHA-256 of them is not modelled.
- Export.ExportAll: the result set is fixed and ordered for the whole loop; query and write errors are absent.
