/**
 The compiler data the assert-usage analyzers read, abstracted to values.

 The host compiler resolves types by metadata name and resolves every
 invocation expression to a symbol; both services are outside this model, so
 their answers appear here as plain data: a compilation carries the table the
 type lookup consults and the invocations with the symbol each resolves to.
 */
module Symbols {

  datatype Option<T> = None | Some(value: T)

  /** The method kinds the compiler distinguishes for a method symbol. */
  datatype MethodKind =
    | Ordinary
    | Constructor
    | StaticConstructor
    | Destructor
    | UserDefinedOperator
    | BuiltinOperator
    | Conversion
    | PropertyGet
    | PropertySet
    | EventAdd
    | EventRemove
    | EventRaise
    | ExplicitInterfaceImplementation
    | DelegateInvoke
    | ReducedExtension
    | LocalFunction
    | AnonymousFunction
    | DeclareMethod
    | FunctionPointerSignature

  /** An opaque handle of a named type inside one compilation: two handles
      denote the same type exactly when they are equal. A derived type, or an
      unrelated type with the same simple name, has a handle of its own. */
  datatype TypeId = TypeId(handle: nat)

  /** The parts of a resolved method symbol that the analyzers look at. */
  datatype MethodSymbol = MethodSymbol(kind: MethodKind, containingType: TypeId, name: string)

  /** What symbol resolution yields for one invocation expression. */
  datatype Symbol =
    | MethodSym(callee: MethodSymbol)
    | OtherSym
    | Unresolved

  /** An invocation expression node of the syntax tree. */
  datatype InvocationNode = InvocationNode(id: nat)

  /** One invocation node together with the symbol it resolves to. */
  datatype Invocation = Invocation(node: InvocationNode, symbol: Symbol)

  /** A diagnostic kind an analyzer declares it can report. */
  datatype DiagnosticDescriptor = DiagnosticDescriptor(id: string)

  /** One compilation as the analyzers see it: the types its type lookup knows,
      by metadata name, and its invocation nodes in visiting order. */
  datatype Compilation = Compilation(typesByMetadataName: map<string, TypeId>, invocations: seq<Invocation>)

  /** The compilation's lookup of a type by its metadata name; None stands for
      the null the lookup returns when the type is not available. */
  function GetTypeByMetadataName(c: Compilation, metadataName: string): Option<TypeId> {
    if metadataName in c.typesByMetadataName then Some(c.typesByMetadataName[metadataName]) else None
  }
}
