/**
 The matching rule shared by every assert-usage analyzer: a per-compilation
 gate on the target type, a four-part filter on each invocation, and the log
 of callback dispatches that the two together produce.
 */
module Matching {
  import opened Symbols

  /** Metadata name of the target type. The value lives in a constants file
      that is not part of this model; no property depends on it. */
  const XunitAssert: string := "Xunit.Assert"

  /** The method-name set built from the configured names: membership is
      exact (ordinal) string equality, duplicates and order play no part. */
  function NameSet(methods: seq<string>): (names: set<string>)
    ensures forall n :: n in names <==> n in methods
    decreases |methods|
  {
    if |methods| == 0 then {}
    else NameSet(methods[..|methods| - 1]) + {methods[|methods| - 1]}
  }

  /** The state of one compilation's analysis after its start action ran:
      either no node action was registered, or one was, capturing the
      resolved target type. */
  datatype Session = Inactive | Active(target: TypeId)

  /** The compilation start action: look the target type up once. */
  function StartSession(c: Compilation): (s: Session)
    ensures s.Active? <==> XunitAssert in c.typesByMetadataName
    ensures s.Active? ==> s.target == c.typesByMetadataName[XunitAssert]
  {
    match GetTypeByMetadataName(c, XunitAssert)
    case None => Inactive
    case Some(t) => Active(t)
  }

  /** The filter of the node action: the symbol is a method, an ordinary one,
      declared on exactly the target type, with a configured name. */
  predicate Matches(symbol: Symbol, target: TypeId, names: set<string>)
    ensures Matches(symbol, target, names) <==>
      exists n :: n in names && symbol == MethodSym(MethodSymbol(Ordinary, target, n))
  {
    && symbol.MethodSym?
    && symbol.callee.kind == Ordinary
    && symbol.callee.containingType == target
    && symbol.callee.name in names
  }

  /** One call of the analyzer's callback, with the node and method symbol. */
  datatype Dispatch = Dispatch(node: InvocationNode, callee: MethodSymbol)

  /** The callback calls that visiting `calls` in order produces in session `s`. */
  function Dispatched(s: Session, calls: seq<Invocation>, names: set<string>): (log: seq<Dispatch>)
    ensures |log| <= |calls|
    ensures s.Inactive? ==> log == []
    ensures forall d :: d in log ==> s.Active? && Matches(MethodSym(d.callee), s.target, names)
  {
    if s.Inactive? || calls == [] then []
    else
      var rest := Dispatched(s, calls[1..], names);
      if Matches(calls[0].symbol, s.target, names)
      then [Dispatch(calls[0].node, calls[0].symbol.callee)] + rest
      else rest
  }

  /** The host visits every invocation node once. */
  ghost predicate NodesDistinct(calls: seq<Invocation>) {
    forall i, j :: 0 <= i < j < |calls| ==> calls[i].node != calls[j].node
  }

  // ---------------------------------------------------------------------
  // The gate

  /** A compilation whose type lookup does not know the target type produces
      no dispatch at all, however many invocations it holds. */
  lemma InactiveCompilationDispatchesNothing(c: Compilation, names: set<string>)
    requires XunitAssert !in c.typesByMetadataName
    ensures StartSession(c) == Inactive
    ensures Dispatched(StartSession(c), c.invocations, names) == []
  {
  }

  // ---------------------------------------------------------------------
  // What each visit contributes

  /** Visiting one invocation dispatches it once if it passes the filter and
      otherwise not at all. */
  lemma {:induction false} DispatchedSingle(target: TypeId, call: Invocation, names: set<string>)
    ensures Dispatched(Active(target), [call], names) ==
      if Matches(call.symbol, target, names) then [Dispatch(call.node, call.symbol.callee)] else []
  {
    assert [call][1..] == [];
  }

  /** Each visit is independent of the others: the log of a sequence of
      visits is the logs of its parts, one after the other. */
  lemma {:induction false} DispatchedAppend(s: Session, a: seq<Invocation>, b: seq<Invocation>, names: set<string>)
    ensures Dispatched(s, a + b, names) == Dispatched(s, a, names) + Dispatched(s, b, names)
  {
    if s.Active? && a != [] {
      assert (a + b)[0] == a[0];
      assert (a + b)[1..] == a[1..] + b;
      DispatchedAppend(s, a[1..], b, names);
    } else if s.Active? {
      assert a + b == b;
    }
  }

  /** How often a callback call occurs in the log: as often as the matching
      invocation occurs among the visited ones, and never when it does not
      pass the filter or the session is inactive. */
  lemma {:induction false} DispatchMultiplicity(s: Session, calls: seq<Invocation>, names: set<string>, d: Dispatch)
    ensures multiset(Dispatched(s, calls, names))[d] ==
      if s.Active? && Matches(MethodSym(d.callee), s.target, names)
      then multiset(calls)[Invocation(d.node, MethodSym(d.callee))]
      else 0
  {
    if s.Active? && calls != [] {
      DispatchMultiplicity(s, calls[1..], names, d);
      assert calls == [calls[0]] + calls[1..];
      assert multiset(calls) == multiset([calls[0]]) + multiset(calls[1..]);
    }
  }

  /** A callback call is in the log exactly when its node was visited with that
      method symbol, in an active session, and the symbol passes the filter. */
  lemma DispatchedIff(s: Session, calls: seq<Invocation>, names: set<string>, d: Dispatch)
    ensures d in Dispatched(s, calls, names) <==>
      && s.Active?
      && Matches(MethodSym(d.callee), s.target, names)
      && Invocation(d.node, MethodSym(d.callee)) in calls
  {
    DispatchMultiplicity(s, calls, names, d);
  }

  /** With distinct nodes, an invocation occurs once among the visited ones. */
  lemma {:induction false} DistinctOccursOnce(calls: seq<Invocation>, i: nat)
    requires NodesDistinct(calls) && i < |calls|
    ensures multiset(calls)[calls[i]] == 1
  {
    assert calls == [calls[0]] + calls[1..];
    assert multiset(calls) == multiset([calls[0]]) + multiset(calls[1..]);
    assert NodesDistinct(calls[1..]) by {
      forall p, q | 0 <= p < q < |calls[1..]|
        ensures calls[1..][p].node != calls[1..][q].node
      {
        assert calls[1..][p] == calls[p + 1] && calls[1..][q] == calls[q + 1];
      }
    }
    if i == 0 {
      forall k | 0 <= k < |calls[1..]|
        ensures calls[1..][k] != calls[0]
      {
        assert calls[1..][k] == calls[k + 1];
      }
      assert calls[0] !in calls[1..];
    } else {
      DistinctOccursOnce(calls[1..], i - 1);
      assert calls[1..][i - 1] == calls[i];
      assert calls[0].node != calls[i].node;
    }
  }

  /** When all four checks hold, the callback is called exactly once for that
      node, and with that node's own method symbol. */
  lemma MatchingCallDispatchedOnce(s: Session, calls: seq<Invocation>, names: set<string>, i: nat)
    requires NodesDistinct(calls) && i < |calls|
    requires s.Active? && Matches(calls[i].symbol, s.target, names)
    ensures multiset(Dispatched(s, calls, names))[Dispatch(calls[i].node, calls[i].symbol.callee)] == 1
    ensures forall d :: d in Dispatched(s, calls, names) && d.node == calls[i].node ==>
      d == Dispatch(calls[i].node, calls[i].symbol.callee)
  {
    var d0 := Dispatch(calls[i].node, calls[i].symbol.callee);
    assert Invocation(d0.node, MethodSym(d0.callee)) == calls[i];
    DispatchMultiplicity(s, calls, names, d0);
    DistinctOccursOnce(calls, i);
    forall d | d in Dispatched(s, calls, names) && d.node == calls[i].node
      ensures d == d0
    {
      DispatchedIff(s, calls, names, d);
      var j :| 0 <= j < |calls| && calls[j] == Invocation(d.node, MethodSym(d.callee));
      assert calls[j].node == calls[i].node;
      assert j == i;
    }
  }

  /** A visited invocation that fails any of the four checks (unresolved or
      not a method, not an ordinary method, declared on another type, name
      not configured), or any invocation of an inactive compilation, is never
      the subject of a callback call. */
  lemma NonMatchingCallNotDispatched(s: Session, calls: seq<Invocation>, names: set<string>, i: nat)
    requires NodesDistinct(calls) && i < |calls|
    requires s.Active? ==> !Matches(calls[i].symbol, s.target, names)
    ensures forall d :: d in Dispatched(s, calls, names) ==> d.node != calls[i].node
  {
    forall d | d in Dispatched(s, calls, names)
      ensures d.node != calls[i].node
    {
      DispatchedIff(s, calls, names, d);
      var j :| 0 <= j < |calls| && calls[j] == Invocation(d.node, MethodSym(d.callee));
      assert Matches(calls[j].symbol, s.target, names);
      assert j != i;
      assert calls[j].node != calls[i].node;
    }
  }

  // ---------------------------------------------------------------------
  // Order and configuration

  /** Visiting the same invocations in another order (as concurrent node
      actions may) yields the same callback calls, counted with multiplicity. */
  lemma DispatchOrderIrrelevant(s: Session, calls1: seq<Invocation>, calls2: seq<Invocation>, names: set<string>)
    requires multiset(calls1) == multiset(calls2)
    ensures multiset(Dispatched(s, calls1, names)) == multiset(Dispatched(s, calls2, names))
  {
    forall d | true
      ensures multiset(Dispatched(s, calls1, names))[d] == multiset(Dispatched(s, calls2, names))[d]
    {
      DispatchMultiplicity(s, calls1, names, d);
      DispatchMultiplicity(s, calls2, names, d);
    }
  }

  /** A rule whose name set includes another's receives every callback call
      the other receives, for the same nodes: rules sharing the target type
      are dispatched independently of each other. */
  lemma DispatchMonotoneInNames(s: Session, calls: seq<Invocation>, names1: set<string>, names2: set<string>)
    requires names1 <= names2
    ensures multiset(Dispatched(s, calls, names1)) <= multiset(Dispatched(s, calls, names2))
  {
    forall d | true
      ensures multiset(Dispatched(s, calls, names1))[d] <= multiset(Dispatched(s, calls, names2))[d]
    {
      DispatchMultiplicity(s, calls, names1, d);
      DispatchMultiplicity(s, calls, names2, d);
    }
  }

  /** Configuring the same names in another order or with repetitions changes
      nothing about which calls are dispatched. */
  lemma SameNamesSameDispatch(s: Session, calls: seq<Invocation>, methods1: seq<string>, methods2: seq<string>)
    requires forall n :: n in methods1 <==> n in methods2
    ensures Dispatched(s, calls, NameSet(methods1)) == Dispatched(s, calls, NameSet(methods2))
  {
    assert NameSet(methods1) == NameSet(methods2);
  }

  /** An empty list of method names is accepted and matches no call. */
  lemma EmptyNamesDispatchNothing(s: Session, calls: seq<Invocation>)
    ensures Dispatched(s, calls, NameSet([])) == []
  {
    var log := Dispatched(s, calls, NameSet([]));
    assert forall k :: 0 <= k < |log| ==> log[k] in log;
  }

  // ---------------------------------------------------------------------
  // A concrete compilation

  /** `Assert.Equal` matches a rule configured with `Equal` and `NotEqual`;
      the same name on another type (a derived or an unrelated type), an
      unconfigured name, a name differing only in case, a non-ordinary method
      and a non-method symbol do not. */
  lemma ExampleCompilation()
    ensures
      var assertType, customAssert := TypeId(0), TypeId(1);
      var equal := MethodSymbol(Ordinary, assertType, "Equal");
      var calls := [
        Invocation(InvocationNode(0), MethodSym(equal)),
        Invocation(InvocationNode(1), MethodSym(MethodSymbol(Ordinary, customAssert, "Equal"))),
        Invocation(InvocationNode(2), MethodSym(MethodSymbol(Ordinary, assertType, "True"))),
        Invocation(InvocationNode(3), MethodSym(MethodSymbol(Ordinary, assertType, "equal"))),
        Invocation(InvocationNode(4), MethodSym(MethodSymbol(Constructor, assertType, "Equal"))),
        Invocation(InvocationNode(5), OtherSym),
        Invocation(InvocationNode(6), Unresolved)];
      Dispatched(Active(assertType), calls, NameSet(["Equal", "NotEqual"])) == [Dispatch(InvocationNode(0), equal)]
  {
    var assertType, customAssert := TypeId(0), TypeId(1);
    var equal := MethodSymbol(Ordinary, assertType, "Equal");
    var names := NameSet(["Equal", "NotEqual"]);
    assert names == {"Equal", "NotEqual"};
    var calls := [
      Invocation(InvocationNode(0), MethodSym(equal)),
      Invocation(InvocationNode(1), MethodSym(MethodSymbol(Ordinary, customAssert, "Equal"))),
      Invocation(InvocationNode(2), MethodSym(MethodSymbol(Ordinary, assertType, "True"))),
      Invocation(InvocationNode(3), MethodSym(MethodSymbol(Ordinary, assertType, "equal"))),
      Invocation(InvocationNode(4), MethodSym(MethodSymbol(Constructor, assertType, "Equal"))),
      Invocation(InvocationNode(5), OtherSym),
      Invocation(InvocationNode(6), Unresolved)];
    var s := Active(assertType);
    assert "True" != "Equal" && "True" != "NotEqual";
    assert "equal" != "Equal" && "equal" != "NotEqual";
    assert Matches(calls[0].symbol, assertType, names);
    assert !Matches(calls[1].symbol, assertType, names);
    assert !Matches(calls[2].symbol, assertType, names);
    assert !Matches(calls[3].symbol, assertType, names);
    assert !Matches(calls[4].symbol, assertType, names);
    assert !Matches(calls[5].symbol, assertType, names);
    assert !Matches(calls[6].symbol, assertType, names);
    assert Dispatched(s, calls[6..], names) == [];
    assert Dispatched(s, calls[5..], names) == [];
    assert Dispatched(s, calls[4..], names) == [];
    assert Dispatched(s, calls[3..], names) == [];
    assert Dispatched(s, calls[2..], names) == [];
    assert Dispatched(s, calls[1..], names) == [];
  }
}
