/**
 The analyzer object the rule family derives from: configuration fixed at
 construction, the host registration done by Initialize, and the node action
 that hands each matching invocation to the rule's Analyze callback. A call
 of the callback is recorded by appending it to `analyzed`; what a concrete
 rule does with it is outside this model.
 */
module Analyzer {
  import opened Symbols
  import opened Matching

  /** The generated-code options a host analysis context can be given. */
  datatype GeneratedCodeAnalysisFlag = AnalyzeGeneratedCode | ReportGeneratedCodeDiagnostics

  /** The host's analysis context, reduced to what Initialize sets on it. */
  class AnalysisContext {
    var generatedCodeAnalysis: set<GeneratedCodeAnalysisFlag>
    var concurrentExecution: bool
    var compilationStartActionRegistered: bool
  }

  class AssertUsageAnalyzer {
    /** The diagnostic kinds the rule declares, in the order given. */
    const supportedDiagnostics: seq<DiagnosticDescriptor>
    /** The configured method names; read-only after construction. */
    const methodNames: set<string>
    /** The calls of the Analyze callback so far, oldest first. */
    var analyzed: seq<Dispatch>

    /** Configure a rule with several diagnostic kinds. An empty list of names
        is accepted; such a rule matches nothing. */
    constructor (descriptors: seq<DiagnosticDescriptor>, methods: seq<string>)
      ensures supportedDiagnostics == descriptors
      ensures methodNames == NameSet(methods)
      ensures forall n :: n in methodNames <==> n in methods
      ensures analyzed == []
    {
      supportedDiagnostics := descriptors;
      methodNames := NameSet(methods);
      analyzed := [];
    }

    /** Configure a rule with a single diagnostic kind. */
    constructor WithDescriptor(descriptor: DiagnosticDescriptor, methods: seq<string>)
      ensures supportedDiagnostics == [descriptor]
      ensures methodNames == NameSet(methods)
      ensures forall n :: n in methodNames <==> n in methods
      ensures analyzed == []
    {
      supportedDiagnostics := [descriptor];
      methodNames := NameSet(methods);
      analyzed := [];
    }

    /** Generated code is analysed and reported on, node actions may run
        concurrently, and one compilation start action is registered. */
    method Initialize(context: AnalysisContext)
      modifies context
      ensures context.generatedCodeAnalysis == {AnalyzeGeneratedCode, ReportGeneratedCodeDiagnostics}
      ensures context.concurrentExecution
      ensures context.compilationStartActionRegistered
    {
      context.generatedCodeAnalysis := {AnalyzeGeneratedCode, ReportGeneratedCodeDiagnostics};
      context.concurrentExecution := true;
      context.compilationStartActionRegistered := true;
    }

    /** The node action registered by a start action that found `target`:
        the callback is called once, with this node and its method symbol, when
        all four checks hold, and nothing at all happens otherwise. */
    method OnInvocation(target: TypeId, invocation: Invocation)
      modifies this`analyzed
      ensures Matches(invocation.symbol, target, methodNames) ==>
        analyzed == old(analyzed) + [Dispatch(invocation.node, invocation.symbol.callee)]
      ensures !Matches(invocation.symbol, target, methodNames) ==> analyzed == old(analyzed)
    {
      if !invocation.symbol.MethodSym? {
        return;
      }
      var m := invocation.symbol.callee;
      if m.kind != Ordinary || m.containingType != target || m.name !in methodNames {
        return;
      }
      analyzed := analyzed + [Dispatch(invocation.node, m)];
    }

    /** One compilation run by a host that visits its invocation nodes one at a
        time, in order: the start action looks the target type up, and only if
        it was found does the node action run, on every invocation. */
    method AnalyzeCompilation(c: Compilation)
      modifies this`analyzed
      ensures analyzed == old(analyzed) + Dispatched(StartSession(c), c.invocations, methodNames)
    {
      var session := StartSession(c);
      if session.Inactive? {
        return;
      }
      var calls := c.invocations;
      var i := 0;
      while i < |calls|
        invariant 0 <= i <= |calls|
        invariant analyzed == old(analyzed) + Dispatched(session, calls[..i], methodNames)
      {
        assert calls[..i + 1] == calls[..i] + [calls[i]];
        DispatchedAppend(session, calls[..i], [calls[i]], methodNames);
        DispatchedSingle(session.target, calls[i], methodNames);
        OnInvocation(session.target, calls[i]);
        i := i + 1;
      }
      assert calls[..i] == calls;
    }
  }
}
