# Assert-usage analyzer base: matching and dispatch

This project models `AssertUsageAnalyzerBase`, the base class of the xunit
analyzers that inspect calls to `Xunit.Assert`. The class is configured with
diagnostic descriptors and a set of method names. For every compilation it
looks the assertion type up once. If the type is found, it checks every
invocation expression and hands the ones that pass to the rule's abstract
`Analyze` callback. An invocation passes when its symbol is an ordinary
method, declared on exactly that type, whose name is one of the configured
names.

Modules:

- `Symbols`: the compiler data as values. A `Compilation` carries the table
  that the type-by-metadata-name lookup consults and the invocation nodes in
  visiting order. Each `Invocation` pairs a node with the `Symbol` that symbol
  resolution yields for it: a method symbol (method kind, containing type,
  name), some other symbol, or nothing. Types are opaque `TypeId` handles
  compared by identity.
- `Matching`: the pure part. `NameSet` is the ordinal name set.
  `StartSession` is the compilation start action, giving `Inactive` or
  `Active(target)`. `Matches` is the four-part filter. `Dispatched` is the log
  of callback calls that visiting a sequence of invocations in one session
  produces. The module also holds the lemmas about them.
- `Analyzer`: the imperative part. The class `AssertUsageAnalyzer` keeps its
  descriptors and names in `const` fields set by its two constructors.
  `Initialize` sets the host options on an `AnalysisContext`. `OnInvocation`
  is the node action, written with the source's early returns; a callback call
  is recorded by appending it to the `analyzed` field. `AnalyzeCompilation` is
  a sequential host run over one compilation (the start action, then the node
  action on each invocation), proved to append exactly `Dispatched`. The host
  drives that loop; the source file has no such loop.

Two consequences of the code are worth stating:

- The constructor accepts an empty method-name list; the resulting rule
  matches nothing (`EmptyNamesDispatchNothing`).
- A call matches only when the resolved method symbol's containing type is
  the target type. A call through a derived type to an inherited method that
  is not overridden resolves to the base declaration, so whether it matches
  depends on the resolver's symbol, which is an input here.

## Model

| member | source | states |
|---|---|---|
| `Matching.NameSet` | src/xunit.analyzers/Analysis/AssertUsageAnalyzerBase.cs:23 | a name is in the set exactly when it occurs in the configured sequence (exact string equality, duplicates and order irrelevant) |
| `Matching.StartSession` | src/xunit.analyzers/Analysis/AssertUsageAnalyzerBase.cs:33-37 | the session is active exactly when the lookup of the target type's metadata name succeeds, and then it holds the type found |
| `Matching.InactiveCompilationDispatchesNothing` | src/xunit.analyzers/Analysis/AssertUsageAnalyzerBase.cs:35-37 | when the target type is absent from a compilation, no node action is registered and none of its invocations is dispatched |
| `Matching.Matches` | src/xunit.analyzers/Analysis/AssertUsageAnalyzerBase.cs:43-51 | a symbol passes exactly when it is a method symbol of kind Ordinary whose containing type is identical to the target and whose name is in the set (both directions) |
| `Matching.Dispatched` | src/xunit.analyzers/Analysis/AssertUsageAnalyzerBase.cs:39-55 | the log has at most one entry per visited invocation, is empty in an inactive session, and every entry passes all four checks against the session's target |
| `Matching.DispatchedSingle` | src/xunit.analyzers/Analysis/AssertUsageAnalyzerBase.cs:43-53 | visiting one invocation yields one callback call with that node and method symbol if it passes the filter, and none otherwise |
| `Matching.DispatchedAppend` | src/xunit.analyzers/Analysis/AssertUsageAnalyzerBase.cs:39-55 | invocations are handled independently: the log for a concatenation is the concatenation of the logs |
| `Matching.DispatchMultiplicity` | src/xunit.analyzers/Analysis/AssertUsageAnalyzerBase.cs:43-53 | a callback call occurs in the log as often as its invocation occurs among the visited ones when it passes the filter in an active session, and never otherwise |
| `Matching.DispatchedIff` | src/xunit.analyzers/Analysis/AssertUsageAnalyzerBase.cs:43-53 | a callback call is logged if and only if the session is active, the symbol passes the four checks, and that node was visited with that symbol |
| `Matching.MatchingCallDispatchedOnce` | src/xunit.analyzers/Analysis/AssertUsageAnalyzerBase.cs:48-53 | when nodes are visited once each and an invocation passes all four checks, the callback is called exactly once for it, and every call for that node carries its own method symbol |
| `Matching.NonMatchingCallNotDispatched` | src/xunit.analyzers/Analysis/AssertUsageAnalyzerBase.cs:43-51 | an invocation that is unresolved or not a method, not ordinary, declared on another type, or has an unconfigured name (or belongs to an inactive compilation) never reaches the callback |
| `Matching.DispatchOrderIrrelevant` | src/xunit.analyzers/Analysis/AssertUsageAnalyzerBase.cs:31 | visiting the same invocations in any order yields the same callback calls counted with multiplicity, which is what concurrent execution relies on |
| `Matching.DispatchMonotoneInNames` | src/xunit.analyzers/Analysis/AssertUsageAnalyzerBase.cs:50 | a rule whose name set includes another's receives every callback call the other receives, so rules sharing a target are dispatched independently |
| `Matching.SameNamesSameDispatch` | src/xunit.analyzers/Analysis/AssertUsageAnalyzerBase.cs:23 | two name sequences with the same members (in any order, with any repetitions) dispatch exactly the same calls |
| `Matching.EmptyNamesDispatchNothing` | src/xunit.analyzers/Analysis/AssertUsageAnalyzerBase.cs:23 | an empty name sequence is accepted at construction and dispatches no call |
| `Matching.ExampleCompilation` | src/xunit.analyzers/Analysis/AssertUsageAnalyzerBase.cs:43-53 | with names `Equal` and `NotEqual`, only `Assert.Equal` is dispatched; `Equal` on another type, `True`, `equal`, a constructor named `Equal`, a non-method symbol and an unresolved one are not |
| `Analyzer.AssertUsageAnalyzer.constructor` | src/xunit.analyzers/Analysis/AssertUsageAnalyzerBase.cs:20-24 | the supported diagnostics are the given descriptors in order; the name set holds exactly the given names; nothing has been dispatched |
| `Analyzer.AssertUsageAnalyzer.WithDescriptor` | src/xunit.analyzers/Analysis/AssertUsageAnalyzerBase.cs:15-18 | the supported diagnostics are the one-element list of the given descriptor; the name set is as for the general constructor |
| `Analyzer.AssertUsageAnalyzer.Initialize` | src/xunit.analyzers/Analysis/AssertUsageAnalyzerBase.cs:28-33 | generated code is both analysed and reported on, concurrent execution is enabled, and a compilation start action is registered |
| `Analyzer.AssertUsageAnalyzer.OnInvocation` | src/xunit.analyzers/Analysis/AssertUsageAnalyzerBase.cs:39-55 | the node action appends exactly one callback call with the node and its method symbol when all four checks hold, and changes nothing otherwise |
| `Analyzer.AssertUsageAnalyzer.AnalyzeCompilation` | src/xunit.analyzers/Analysis/AssertUsageAnalyzerBase.cs:33-56 | running the start action and then the node action over a compilation's invocations appends exactly the calls `Dispatched` gives for its session |

## Left out

- The concrete `Analyze` implementations and the diagnostic-reporting sink (line 59): the callback is abstract, so a call of it is recorded as a log entry. The entry holds the node and the method symbol; the `SyntaxNodeAnalysisContext` passed along with them (lines 53 and 59) is not modelled, since it only gives the rule access to the host.
- The registered actions as values: `AnalysisContext.compilationStartActionRegistered` only records that `Initialize` registered a start action. That action is `StartSession` followed, when the session is active, by `OnInvocation` on each invocation; `AnalyzeCompilation` runs exactly that, and it does not require `Initialize` to have run first. `AnalysisContext` has no constructor of its own, because the host creates the context.
- Type lookup by metadata name and symbol resolution: these are compiler services. Their answers are inputs (the compilation's type table and each invocation's symbol). An ambiguous lookup, which also yields null, is not distinguished from an absent type.
- The value of `Constants.Types.XunitAssert`: the constants file is not part of this model. The constant is given the value `Xunit.Assert`, and no property depends on that value.
- Concurrent execution of node actions (line 31): threads are not modelled. The order independence of the log (`DispatchOrderIrrelevant`) and the fact that configuration fields are `const` stand in for it.
- The cancellation token passed to symbol resolution (line 43): cooperative cancellation by the host is not modelled.
- Symbol kinds other than method are collapsed into one `OtherSym` case, because the filter only asks whether the kind is `Method`.
- The syntax node cast to an invocation expression (line 41): the host registers the node action for invocation expressions only, so every visited node is one.
- Null-argument exceptions from the collection constructors (lines 22-23): library behaviour.
- The scheduling of callbacks by the host: `AnalyzeCompilation` fixes one sequential order of visits, and `DispatchOrderIrrelevant` covers the other orders.
