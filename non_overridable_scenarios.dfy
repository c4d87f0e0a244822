/**
 * The recipe's own test cases, stated on their attributed trees: which
 * methods keep their modifiers and which get `static`.
 */
module NonOverridableScenarios {
  import opened JavaTree
  import opened JavaSamples
  import opened NonOverridableRecipe

  /** A body made of one statement `s`. */
  lemma OneStatementBody(s: Node)
    ensures BodyHasInstanceAccess(Some(Block([s]))) == HasInstanceAccess(s, OtherParent)
  {
    SomeNodeMeetsOneChild(Block([s]), OtherParent, ParentOf, Triggers, s, RightPadded);
  }

  /** A body made of one `return e;`. */
  lemma ReturnBody(e: Node)
    ensures BodyHasInstanceAccess(Some(Block([Return(e)]))) == HasInstanceAccess(e, OtherParent)
  {
    OneStatementBody(Return(e));
    SomeNodeMeetsOneChild(Return(e), OtherParent, ParentOf, Triggers, e, Direct);
  }

  /** Public, package-private and protected methods and constructors are
      never changed. */
  lemma OverridablesAndConstructorsUnchanged()
    ensures Rewritten(PublicEmpty) == PublicEmpty
    ensures Rewritten(PackageEmpty) == PackageEmpty
    ensures Rewritten(ProtectedEmpty) == ProtectedEmpty
    ensures Rewritten(PrivateConstructor) == PrivateConstructor
  {
    NonCandidateUnchanged(PublicEmpty);
    NonCandidateUnchanged(PackageEmpty);
    NonCandidateUnchanged(ProtectedEmpty);
    NonCandidateUnchanged(PrivateConstructor);
  }

  /** Reading an instance field, `this`, or a field through `this` keeps a
      private or final method as it is. */
  lemma InstanceFieldReadUnchanged()
    ensures Rewritten(ReturnsInstanceField) == ReturnsInstanceField
    ensures Rewritten(FinalReturnsInstanceField) == FinalReturnsInstanceField
    ensures Rewritten(ReturnsThis) == ReturnsThis
    ensures Rewritten(ReturnsThisField) == ReturnsThisField
  {
    ReturnBody(Ident("a", InstanceField));
    ReturnBody(Ident("this", InstanceField));
    var fa := FieldAccess(Ident("this", InstanceField), Ident("a", InstanceField));
    ReturnBody(fa);
    SomeNodeMeetsTwoChildren(fa, OtherParent, ParentOf, Triggers, Ident("this", InstanceField), Direct, Ident("a", InstanceField), LeftPadded);
  }

  /** Calling an instance method with an implicit receiver keeps the method
      as it is. */
  lemma InstanceMethodCallUnchanged()
    ensures Rewritten(CallsInstanceMethod) == CallsInstanceMethod
  {
    OneStatementBody(Call("method", false));
  }

  /** That includes a private method calling itself. */
  lemma SelfRecursionUnchanged()
    ensures Rewritten(SelfRecursive) == SelfRecursive
  {
    ReturnBody(Call("test", false));
  }

  /** Two private methods calling each other both stay as they are: the
      recipe does not reason about what the callee does. */
  lemma CrossRecursionUnchanged()
    ensures RecipeResult(CrossRecursive) == CrossRecursive
  {
    var test1 := Method([Private], "test1", [], [], [Return(Call("test2", false))]);
    var test2 := Method([Private], "test2", [], [], [Return(Call("test1", false))]);
    CallerKept("test1", "test2");
    CallerKept("test2", "test1");
    ClassResult("A", [MethodDecl(test1), MethodDecl(test2)]);
    assert MapAll([MethodDecl(test1), MethodDecl(test2)], Rewritten) == [MethodDecl(test1), MethodDecl(test2)];
  }

  /** `private int m() { return callee(); }` is left as it is by the whole
      recipe. */
  lemma CallerKept(name: string, callee: string)
    ensures var d := Method([Private], name, [], [], [Return(Call(callee, false))]);
      MapDecls(MethodDecl(d), Rewritten) == MethodDecl(d)
  {
    var d := Method([Private], name, [], [], [Return(Call(callee, false))]);
    ReturnBody(Call(callee, false));
    ReturnBodyKeptByMapDecls(Call(callee, false));
    assert MapDeclChildren(d, Rewritten) == d;
  }

  /** The recipe on a class whose name is an identifier: its members are
      rewritten one by one. */
  lemma ClassResult(name: string, members: seq<Node>)
    ensures RecipeResult(Class(name, members)) == Class(name, MapAll(members, Rewritten))
  {
    assert MapDecls(Name(name), Rewritten) == Name(name);
    assert MapDecls(Block(members), Rewritten) == Block(MapAll(members, Rewritten));
  }

  /** A `return` of a leaf or of an argument-less implicit call holds no
      declaration, so the bottom-up rewrite leaves it as it is. */
  lemma ReturnBodyKeptByMapDecls(e: Node)
    requires e == Leaf || (e.MethodInvocation? && e.select.None? && e.name.Ident? && e.arguments == [])
    ensures MapOpt(Some(Block([Return(e)])), Rewritten) == Some(Block([Return(e)]))
  {
    assert MapAll([], Rewritten) == [];
    if e.MethodInvocation? {
      assert MapDecls(e.name, Rewritten) == e.name;
    }
    assert MapDecls(e, Rewritten) == e;
    assert MapAll([e], Rewritten) == [e];
    assert MapAll([Return(e)], Rewritten) == [Return(e)];
  }

  /** An instance field read or an instance method call in the initializer
      of a local variable keeps the method as it is. */
  lemma InitializerAccessUnchanged()
    ensures Rewritten(InitializerReadsInstanceField) == InitializerReadsInstanceField
    ensures Rewritten(InitializerCallsInstanceMethod) == InitializerCallsInstanceMethod
  {
    InitializerReadsInstanceFieldDetected(Ident("a", InstanceField));
    InitializerReadsInstanceFieldDetected(Call("method", false));
  }

  /** The body `{ int i = init; return i; }` has an instance access when
      `init` meets a rule. */
  lemma InitializerReadsInstanceFieldDetected(init: Node)
    requires Triggers(init, OtherParent)
    ensures BodyHasInstanceAccess(Some(Block([IntVariable("i", Local, init), Return(Ident("i", Local))])))
  {
    var decl := IntVariable("i", Local, init);
    DeclarationDetected(init);
    SomeNodeMeetsTwoChildren(Block([decl, Return(Ident("i", Local))]), OtherParent, ParentOf, Triggers,
                             decl, RightPadded, Return(Ident("i", Local)), RightPadded);
  }

  /** The statement `int i = init;`: the initializer hangs in a JLeftPadded
      under the NamedVariable, so its parent is not the NamedVariable. */
  lemma DeclarationDetected(init: Node)
    requires Triggers(init, OtherParent)
    ensures HasInstanceAccess(IntVariable("i", Local, init), OtherParent)
  {
    var nv := NamedVariable(Ident("i", Local), Some(init));
    HasInstanceAccessUnfold(init, OtherParent);
    SomeNodeMeetsTwoChildren(nv, OtherParent, ParentOf, Triggers, Ident("i", Local), Direct, init, LeftPadded);
    SomeNodeMeetsTwoChildren(IntVariable("i", Local, init), OtherParent, ParentOf, Triggers, Name("int"), Direct, nv, RightPadded);
  }

  /** Creating an inner class without an enclosing instance keeps the method
      as it is. */
  lemma InnerClassCreationUnchanged()
    ensures Rewritten(CreatesInner) == CreatesInner
  {
    ReturnBody(NewNested(None, false));
  }

  /** The serialization hooks of a Serializable class stay as they are even
      with an empty body. */
  lemma SerializationHooksUnchanged()
    ensures Rewritten(WriteObject) == WriteObject
    ensures Rewritten(ReadObject) == ReadObject
    ensures Rewritten(ReadObjectNoData) == ReadObjectNoData
  {
    SerializationHookUnchanged(WriteObject);
    SerializationHookUnchanged(ReadObject);
    SerializationHookUnchanged(ReadObjectNoData);
  }

  /** A private method returning a literal gets `static`, also inside its
      class. */
  lemma NoInstanceAccessGetsStatic()
    ensures Rewritten(ReturnsLiteral).modifiers == [Private, Static]
    ensures RecipeResult(LiteralClass) == Class("A", [MethodDecl(WithStatic(ReturnsLiteral))])
  {
    ReturnBody(Leaf);
    SomeNodeMeetsLeaf(Leaf, OtherParent, ParentOf, Triggers);
    ReturnBodyKeptByMapDecls(Leaf);
    assert MapDeclChildren(ReturnsLiteral, Rewritten) == ReturnsLiteral;
    assert MapAll([MethodDecl(ReturnsLiteral)], Rewritten) == [MethodDecl(WithStatic(ReturnsLiteral))];
    ClassResult("A", [MethodDecl(ReturnsLiteral)]);
  }

  /** Static fields and static methods of the class are not instance data. */
  lemma StaticMemberAccessGetsStatic()
    ensures Rewritten(ReturnsStaticField) == WithStatic(ReturnsStaticField)
    ensures Rewritten(CallsStaticMethod) == WithStatic(CallsStaticMethod)
  {
    ReturnBody(Ident("a", StaticField));
    SomeNodeMeetsLeaf(Ident("a", StaticField), OtherParent, ParentOf, Triggers);
    OneStatementBody(Call("method", true));
    SomeNodeMeetsOneChild(Call("method", true), OtherParent, ParentOf, Triggers, Name("method"), Direct);
    SomeNodeMeetsLeaf(Name("method"), MethodInvocationParent, ParentOf, Triggers);
  }

  /** A parameter that shadows an instance field is not instance data. */
  lemma ShadowingParameterGetsStatic()
    ensures Rewritten(ReturnsShadowingParameter) == WithStatic(ReturnsShadowingParameter)
  {
    ReturnBody(Ident("a", Local));
    SomeNodeMeetsLeaf(Ident("a", Local), OtherParent, ParentOf, Triggers);
  }

  /** Fields, methods and inner classes of another instance reached through a
      parameter are not instance data of `this`. */
  lemma OtherInstanceAccessGetsStatic()
    ensures Rewritten(ReturnsFieldOfParameter) == WithStatic(ReturnsFieldOfParameter)
    ensures Rewritten(CallsMethodOfParameter) == WithStatic(CallsMethodOfParameter)
    ensures Rewritten(CreatesInnerOfParameter) == WithStatic(CreatesInnerOfParameter)
  {
    var a := Ident("a", Local);
    ReturnBody(FieldAccess(a, Ident("field", InstanceField)));
    FieldOfParameterNoAccess();
    OneStatementBody(MethodInvocation(Some(a), Name("method"), [], Some(MethodType("method", [], [], false))));
    CallOnParameterNoAccess();
    ReturnBody(NewNested(Some(a), false));
    InnerOfParameterNoAccess();
  }

  /** `a.field`: the target `a` is a parameter, the name segment is discarded. */
  lemma FieldOfParameterNoAccess()
    ensures !HasInstanceAccess(FieldAccess(Ident("a", Local), Ident("field", InstanceField)), OtherParent)
  {
    var a := Ident("a", Local);
    SomeNodeMeetsTwoChildren(FieldAccess(a, Ident("field", InstanceField)), OtherParent, ParentOf, Triggers,
                             a, Direct, Ident("field", InstanceField), LeftPadded);
    SomeNodeMeetsLeaf(a, OtherParent, ParentOf, Triggers);
    SomeNodeMeetsLeaf(Ident("field", InstanceField), FieldAccessNameParent, ParentOf, Triggers);
  }

  /** `a.method()`: a call with a select; `a` is a parameter. */
  lemma CallOnParameterNoAccess()
    ensures !HasInstanceAccess(MethodInvocation(Some(Ident("a", Local)), Name("method"), [], Some(MethodType("method", [], [], false))), OtherParent)
  {
    var a := Ident("a", Local);
    var mi := MethodInvocation(Some(a), Name("method"), [], Some(MethodType("method", [], [], false)));
    SomeNodeMeetsTwoChildren(mi, OtherParent, ParentOf, Triggers, a, RightPadded, Name("method"), Direct);
    SomeNodeMeetsLeaf(a, OtherParent, ParentOf, Triggers);
    SomeNodeMeetsLeaf(Name("method"), MethodInvocationParent, ParentOf, Triggers);
  }

  /** `a.new B()`: an explicit enclosing instance; `a` is a parameter. */
  lemma InnerOfParameterNoAccess()
    ensures !HasInstanceAccess(NewNested(Some(Ident("a", Local)), false), OtherParent)
  {
    var a := Ident("a", Local);
    SomeNodeMeetsTwoChildren(NewNested(Some(a), false), OtherParent, ParentOf, Triggers, a, RightPadded, Name("B"), Direct);
    SomeNodeMeetsLeaf(a, OtherParent, ParentOf, Triggers);
    SomeNodeMeetsLeaf(Name("B"), NewClassParent, ParentOf, Triggers);
  }

  /** Creating a static nested class is not an instance access. */
  lemma StaticNestedCreationGetsStatic()
    ensures Rewritten(CreatesStaticNested) == WithStatic(CreatesStaticNested)
  {
    var nc := NewNested(None, true);
    ReturnBody(nc);
    SomeNodeMeetsOneChild(nc, OtherParent, ParentOf, Triggers, Name("B"), Direct);
    SomeNodeMeetsLeaf(Name("B"), NewClassParent, ParentOf, Triggers);
  }
}
