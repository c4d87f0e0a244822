/**
 * Attributed trees of the small Java classes the recipes' own test suites
 * run on, built from the JavaTree model. Only what the recipes look at is
 * spelled out: literals and primitive type names are leaves without type
 * information, and a method's parameter types appear only in its method type.
 */
module JavaSamples {
  import opened JavaTree

  /** Field types: a non-static field of the class, a static one, and a
      parameter or local variable (owned by a method, not by a class). */
  const InstanceField := Some(VariableType(true, false))
  const StaticField := Some(VariableType(true, true))
  const Local := Some(VariableType(false, false))

  /** A literal, or a primitive type name: a leaf carrying no field type. */
  const Leaf := Other([])

  function Name(s: string): Node {
    Ident(s, None)
  }

  /** `return e;`: J.Return holds its expression directly. */
  function Return(e: Node): Node {
    Other([e])
  }

  /** `int name = 0;` as a field or a local variable declaration. */
  function IntVariable(name: string, fieldType: Option<VariableType>, init: Node): Node {
    VarDecls(Some(Name("int")), [NamedVariable(Ident(name, fieldType), Some(init))])
  }

  /** A parameter `T name`. */
  function Parameter(typeName: string, name: string): Node {
    VarDecls(Some(Name(typeName)), [NamedVariable(Ident(name, Local), None)])
  }

  /** A method of a class implementing nothing, with a block body. */
  function Method(modifiers: seq<ModifierType>, name: string, parameters: seq<Node>,
                  parameterTypes: seq<string>, statements: seq<Node>): MethodDeclaration {
    MethodDeclaration(modifiers, false, Name(name), parameters, Some(Block(statements)),
                      Some(MethodType(name, parameterTypes, [], Static in modifiers)))
  }

  /** An implicit-receiver call `name()` of a method of the class. */
  function Call(name: string, isStatic: bool): Node {
    MethodInvocation(None, Name(name), [], Some(MethodType(name, [], [], isStatic)))
  }

  function Class(name: string, members: seq<Node>): Node {
    ClassDecl(Name(name), Block(members))
  }

  /** `private int test() { return 0; }` */
  const ReturnsLiteral := Method([Private], "test", [], [], [Return(Leaf)])

  /** `private int test() { return a; }` with `a` an instance field. */
  const ReturnsInstanceField := Method([Private], "test", [], [], [Return(Ident("a", InstanceField))])

  /** `final int test() { return a; }` with `a` an instance field. */
  const FinalReturnsInstanceField := Method([Final], "test", [], [], [Return(Ident("a", InstanceField))])

  /** `private A test() { return this; }` */
  const ReturnsThis := Method([Private], "test", [], [], [Return(Ident("this", InstanceField))])

  /** `private int test() { return this.a; }` */
  const ReturnsThisField :=
    Method([Private], "test", [], [], [Return(FieldAccess(Ident("this", InstanceField), Ident("a", InstanceField)))])

  /** `private int test() { return a; }` with `a` a static field. */
  const ReturnsStaticField := Method([Private], "test", [], [], [Return(Ident("a", StaticField))])

  /** `private int test(int a) { return a; }`: the parameter shadows field `a`. */
  const ReturnsShadowingParameter :=
    Method([Private], "test", [Parameter("int", "a")], ["int"], [Return(Ident("a", Local))])

  /** `private int test(A a) { return a.field; }` */
  const ReturnsFieldOfParameter :=
    Method([Private], "test", [Parameter("A", "a")], ["A"],
           [Return(FieldAccess(Ident("a", Local), Ident("field", InstanceField)))])

  /** `private void test(A a) { a.method(); }` */
  const CallsMethodOfParameter :=
    Method([Private], "test", [Parameter("A", "a")], ["A"],
           [MethodInvocation(Some(Ident("a", Local)), Name("method"), [], Some(MethodType("method", [], [], false)))])

  /** `private void test() { method(); }` with `method` an instance method. */
  const CallsInstanceMethod := Method([Private], "test", [], [], [Call("method", false)])

  /** `private void test() { method(); }` with `method` a static method. */
  const CallsStaticMethod := Method([Private], "test", [], [], [Call("method", true)])

  /** `private int test() { return test(); }` */
  const SelfRecursive := Method([Private], "test", [], [], [Return(Call("test", false))])

  /** `final int test() { int i = a; return i; }` */
  const InitializerReadsInstanceField :=
    Method([Final], "test", [], [], [IntVariable("i", Local, Ident("a", InstanceField)), Return(Ident("i", Local))])

  /** `private int test() { int i = method(); return i; }` */
  const InitializerCallsInstanceMethod :=
    Method([Private], "test", [], [], [IntVariable("i", Local, Call("method", false)), Return(Ident("i", Local))])

  /** `new B()` of a nested class `B` of the enclosing class. */
  function NewNested(enclosing: Option<Node>, isStatic: bool): Node {
    NewClass(enclosing, Some(Name("B")), [], None, Some(ClassType(true, isStatic)))
  }

  /** `private B test() { return new B(); }` with `B` an inner class. */
  const CreatesInner := Method([Private], "test", [], [], [Return(NewNested(None, false))])

  /** `private B test(A a) { return a.new B(); }` */
  const CreatesInnerOfParameter :=
    Method([Private], "test", [Parameter("A", "a")], ["A"], [Return(NewNested(Some(Ident("a", Local)), false))])

  /** `private B test() { return new B(); }` with `B` a static nested class. */
  const CreatesStaticNested := Method([Private], "test", [], [], [Return(NewNested(None, true))])

  /** `public void test() {}`, `void test() {}` and `protected void test() {}` */
  const PublicEmpty := Method([Public], "test", [], [], [])
  const PackageEmpty := Method([], "test", [], [], [])
  const ProtectedEmpty := Method([Protected], "test", [], [], [])

  /** `private A() {}` */
  const PrivateConstructor := MethodDeclaration([Private], true, Name("A"), [], Some(Block([])), None)

  /** The three serialization hooks of `class A implements Serializable`,
      with empty bodies. */
  function SerializableMethod(name: string, parameterTypes: seq<string>): MethodDeclaration {
    MethodDeclaration([Private], false, Name(name), [], Some(Block([])),
                      Some(MethodType(name, parameterTypes, ["java.io.Serializable"], false)))
  }
  const WriteObject := SerializableMethod("writeObject", ["java.io.ObjectOutputStream"])
  const ReadObject := SerializableMethod("readObject", ["java.io.ObjectInputStream"])
  const ReadObjectNoData := SerializableMethod("readObjectNoData", [])

  /** `class A { private int test1() { return test2(); } private int test2() { return test1(); } }` */
  const CrossRecursive :=
    Class("A", [MethodDecl(Method([Private], "test1", [], [], [Return(Call("test2", false))])),
                MethodDecl(Method([Private], "test2", [], [], [Return(Call("test1", false))]))])

  /** `class A { private int test() { return 0; } }` */
  const LiteralClass := Class("A", [MethodDecl(ReturnsLiteral)])
}
