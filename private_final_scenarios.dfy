/**
 * The earlier recipe's test cases, stated on their attributed trees, and
 * two inputs on which it does what the later recipe was changed to avoid.
 */
module PrivateFinalScenarios {
  import opened JavaTree
  import opened JavaSamples
  import opened PrivateFinalRecipe

  /** A body made of one statement `s`: its nodes are in a Block. */
  lemma OneStatementBody(s: Node)
    ensures BodyHasInstanceAccess(Some(Block([s]))) == HasInstanceAccess(s, BlockScope)
  {
    SomeNodeMeetsOneChild(Block([s]), NoScope, ScopeOf, Triggers, s, RightPadded);
  }

  /** A body made of one `return e;`. */
  lemma ReturnBody(e: Node)
    ensures BodyHasInstanceAccess(Some(Block([Return(e)]))) == HasInstanceAccess(e, BlockScope)
  {
    OneStatementBody(Return(e));
    SomeNodeMeetsOneChild(Return(e), BlockScope, ScopeOf, Triggers, e, Direct);
  }

  lemma OverridablesAndConstructorsUnchanged()
    ensures Rewritten(PublicEmpty) == PublicEmpty
    ensures Rewritten(PackageEmpty) == PackageEmpty
    ensures Rewritten(ProtectedEmpty) == ProtectedEmpty
    ensures Rewritten(PrivateConstructor) == PrivateConstructor
  {
    NonCandidateUnchanged(PublicEmpty);
    NonCandidateUnchanged(PackageEmpty);
    NonCandidateUnchanged(ProtectedEmpty);
    NonCandidateUnchanged(PrivateConstructor);
  }

  /** Reading an instance field, `this`, or a field through `this` keeps a
      private or final method as it is. */
  lemma InstanceFieldReadUnchanged()
    ensures Rewritten(ReturnsInstanceField) == ReturnsInstanceField
    ensures Rewritten(FinalReturnsInstanceField) == FinalReturnsInstanceField
    ensures Rewritten(ReturnsThis) == ReturnsThis
    ensures Rewritten(ReturnsThisField) == ReturnsThisField
  {
    ReturnBody(Ident("a", InstanceField));
    ReturnBody(Ident("this", InstanceField));
    ReturnBody(FieldAccess(Ident("this", InstanceField), Ident("a", InstanceField)));
  }

  lemma InstanceMethodCallUnchanged()
    ensures Rewritten(CallsInstanceMethod) == CallsInstanceMethod
  {
    OneStatementBody(Call("method", false));
  }

  lemma InnerClassCreationUnchanged()
    ensures Rewritten(CreatesInner) == CreatesInner
  {
    ReturnBody(NewNested(None, false));
  }

  lemma NoInstanceAccessGetsStatic()
    ensures Rewritten(ReturnsLiteral).modifiers == [Private, Static]
  {
    ReturnBody(Leaf);
    SomeNodeMeetsLeaf(Leaf, BlockScope, ScopeOf, Triggers);
  }

  lemma ShadowingParameterGetsStatic()
    ensures Rewritten(ReturnsShadowingParameter) == WithStatic(ReturnsShadowingParameter)
  {
    ReturnBody(Ident("a", Local));
    SomeNodeMeetsLeaf(Ident("a", Local), BlockScope, ScopeOf, Triggers);
  }

  /** `a.field` and `a.new B()` on a parameter `a` are not instance data of
      `this`; both identifiers of `a.field` are under a FieldAccess. */
  lemma OtherInstanceAccessGetsStatic()
    ensures Rewritten(ReturnsFieldOfParameter) == WithStatic(ReturnsFieldOfParameter)
    ensures Rewritten(CreatesInnerOfParameter) == WithStatic(CreatesInnerOfParameter)
  {
    var a := Ident("a", Local);
    var fa := FieldAccess(a, Ident("field", InstanceField));
    ReturnBody(fa);
    SomeNodeMeetsTwoChildren(fa, BlockScope, ScopeOf, Triggers, a, Direct, Ident("field", InstanceField), LeftPadded);
    SomeNodeMeetsLeaf(a, FieldAccessScope, ScopeOf, Triggers);
    SomeNodeMeetsLeaf(Ident("field", InstanceField), FieldAccessScope, ScopeOf, Triggers);
    SomeNodeMeetsLeaf(a, BlockScope, ScopeOf, Triggers);
    SomeNodeMeetsLeaf(Name("B"), BlockScope, ScopeOf, Triggers);
    var nc := NewNested(Some(a), false);
    ReturnBody(nc);
    SomeNodeMeetsTwoChildren(nc, BlockScope, ScopeOf, Triggers, a, RightPadded, Name("B"), Direct);
  }

  lemma StaticNestedCreationGetsStatic()
    ensures Rewritten(CreatesStaticNested) == WithStatic(CreatesStaticNested)
  {
    var nc := NewNested(None, true);
    ReturnBody(nc);
    SomeNodeMeetsOneChild(nc, BlockScope, ScopeOf, Triggers, Name("B"), Direct);
    SomeNodeMeetsLeaf(Name("B"), BlockScope, ScopeOf, Triggers);
  }

  /** `final int test() { int i = a; return i; }` with `a` an instance field
      gets `static`: the nearest of FieldAccess, VariableDeclarations and
      Block above `a` is the declaration `int i = a`, so `a` is never
      classified. A call in the same position is still seen. */
  lemma InitializerReadMissed()
    ensures Rewritten(InitializerReadsInstanceField) == WithStatic(InitializerReadsInstanceField)
    ensures Rewritten(InitializerCallsInstanceMethod) == InitializerCallsInstanceMethod
  {
    InitializerVerdict(Ident("a", InstanceField));
    SomeNodeMeetsLeaf(Ident("a", InstanceField), VarDeclsScope, ScopeOf, Triggers);
    InitializerVerdict(Call("method", false));
    HasInstanceAccessUnfold(Call("method", false), VarDeclsScope);
  }

  /** The body `{ int i = init; return i; }` has an instance access iff
      `init` has one when visited under a VariableDeclarations. */
  lemma InitializerVerdict(init: Node)
    ensures BodyHasInstanceAccess(Some(Block([IntVariable("i", Local, init), Return(Ident("i", Local))])))
      == HasInstanceAccess(init, VarDeclsScope)
  {
    var decl := IntVariable("i", Local, init);
    var ret := Return(Ident("i", Local));
    DeclarationVerdict(init);
    SomeNodeMeetsOneChild(ret, BlockScope, ScopeOf, Triggers, Ident("i", Local), Direct);
    SomeNodeMeetsTwoChildren(Block([decl, ret]), NoScope, ScopeOf, Triggers, decl, RightPadded, ret, RightPadded);
  }

  /** The statement `int i = init;` in a Block. */
  lemma DeclarationVerdict(init: Node)
    ensures HasInstanceAccess(IntVariable("i", Local, init), BlockScope) == HasInstanceAccess(init, VarDeclsScope)
  {
    var nv := NamedVariable(Ident("i", Local), Some(init));
    NamedVariableVerdict(init);
    SomeNodeMeetsLeaf(Name("int"), VarDeclsScope, ScopeOf, Triggers);
    SomeNodeMeetsTwoChildren(IntVariable("i", Local, init), BlockScope, ScopeOf, Triggers, Name("int"), Direct, nv, RightPadded);
  }

  /** `i = init` under its VariableDeclarations: both `i` and `init` are in
      its scope. */
  lemma NamedVariableVerdict(init: Node)
    ensures HasInstanceAccess(NamedVariable(Ident("i", Local), Some(init)), VarDeclsScope) == HasInstanceAccess(init, VarDeclsScope)
  {
    var nv := NamedVariable(Ident("i", Local), Some(init));
    SomeNodeMeetsLeaf(Ident("i", Local), VarDeclsScope, ScopeOf, Triggers);
    SomeNodeMeetsTwoChildren(nv, VarDeclsScope, ScopeOf, Triggers, Ident("i", Local), Direct, init, LeftPadded);
  }

  /** The serialization hooks of a Serializable class, with empty bodies,
      get `static`; the serialization runtime only calls them when they are
      not static. */
  lemma SerializationHooksGetStatic()
    ensures Rewritten(WriteObject) == WithStatic(WriteObject)
    ensures Rewritten(ReadObject) == WithStatic(ReadObject)
    ensures Rewritten(ReadObjectNoData) == WithStatic(ReadObjectNoData)
  {
    SomeNodeMeetsLeaf(Block([]), NoScope, ScopeOf, Triggers);
  }
}
