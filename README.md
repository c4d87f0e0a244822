# Non-overridable methods without instance data become `static`

This project models, in Dafny, the two OpenRewrite recipes of the repository.
Each recipe gives the `static` modifier to a `private` or `final` method whose
body does not touch the instance data of its class:

- `NonOverridableMethodsNoInstanceDataToStaticRecipe`, the later recipe, is
  modelled in module `NonOverridableRecipe` (`non_overridable_recipe.dfy`).
- `PrivateFinalMethodsNoInstanceDataStaticReceipe`, the earlier recipe, is
  modelled in module `PrivateFinalRecipe` (`private_final_recipe.dfy`).

Both recipes share the attributed Java tree they read, in module `JavaTree`
(`java_tree.dfy`). That module holds:

- the nodes;
- how each child hangs under its parent in OpenRewrite's cursor: directly,
  inside a `JLeftPadded`, or inside a `JRightPadded`;
- the generic "some node meets a rule" verdict of a walk whose flag is only
  ever set;
- the bottom-up rewrite of method declarations;
- the `AtomicBoolean` as a class `AtomicBool`.

Each recipe module has three parts.

- **The decision.** `Rewritten` is the guard chain of `visitMethodDeclaration`:
  - already `static`: unchanged;
  - a constructor: unchanged;
  - neither `private` nor `final`: unchanged;
  - in the later recipe only, a serialization hook of a `java.io.Serializable`
    type: unchanged;
  - otherwise `static` is appended when `find` reports no instance access.

  `VisitMethodDeclaration` is the same chain written as a method that runs
  `Find`. `RecipeResult` and `VisitTree` apply the decision to every method
  declaration of a tree, innermost first, as `super.visitMethodDeclaration`
  does.
- **AccessInstanceDataVisitor.** Each visit method takes the shared flag and
  the context the cursor gives it:
  - the later recipe uses the kind of the parent;
  - the earlier recipe uses the nearest FieldAccess, VariableDeclarations or
    Block ancestor.

  Each visit method is proved to leave the flag at "old value, or some node
  below meets a trigger rule" (`HasInstanceAccess`). The early returns, and
  the earlier recipe's second visit of a `new` expression's children, keep
  that. `Find` is proved to return exactly `BodyHasInstanceAccess`.
- **Properties.**
  - The decision appends exactly one `Static` and nothing else changes.
  - A second pass over the same attributed tree changes nothing.
  - The verdict is "some node in the flat list of the body's nodes meets a
    rule".
  - Rewriting nested declarations first cannot change an enclosing method's
    verdict.
  - The recipes' test cases hold of their trees
    (`non_overridable_scenarios.dfy`, `private_final_scenarios.dfy`, on the
    trees of `java_samples.dfy`).

The trigger rules of the later recipe:

- an identifier is a non-static field owned by a class, and its parent is
  none of these: a NamedVariable, a ClassDeclaration, a MethodDeclaration, a
  MethodInvocation, a NewClass, or the `JLeftPadded` name segment of a
  FieldAccess;
- a call with no `select`, to a method that is not static;
- a `new` with no enclosing expression, of a class that has an owning class
  and is not static.

The earlier recipe differs in two rules:

- its identifier rule requires the nearest FieldAccess, VariableDeclarations
  or Block ancestor to be a Block;
- it adds a rule for a field access whose target is an identifier that is a
  non-static class-owned field.

The code has no call-graph fixpoint: any implicit-receiver call to a
non-static method disqualifies the caller, including a call to itself or to
another private method. `SelfRecursionUnchanged` and
`CrossRecursionUnchanged` state the consequence.

## Model

| member | source | states |
|---|---|---|
| NonOverridableRecipe.VisitMethodDeclaration | src/main/java/io/moderne/receipes/NonOverridableMethodsNoInstanceDataToStaticRecipe.java:42-83 | running the guards and `find` returns the declaration unchanged or with `Static` appended, and agrees with `Rewritten` |
| NonOverridableRecipe.RewriteDecision | src/main/java/io/moderne/receipes/NonOverridableMethodsNoInstanceDataToStaticRecipe.java:45-80 | the result is the declaration or its `Static` form; it is the `Static` form iff the method is a candidate, not a serialization hook, and its body has no instance access |
| NonOverridableRecipe.NonCandidateUnchanged | src/main/java/io/moderne/receipes/NonOverridableMethodsNoInstanceDataToStaticRecipe.java:45-59 | an already static method, a constructor, or a method with neither `private` nor `final` is returned unchanged |
| NonOverridableRecipe.SerializationHookUnchanged | src/main/java/io/moderne/receipes/NonOverridableMethodsNoInstanceDataToStaticRecipe.java:35-70 | on a type implementing `java.io.Serializable`, `writeObject(ObjectOutputStream)`, `readObject(ObjectInputStream)` and `readObjectNoData()` are unchanged whatever their body |
| NonOverridableRecipe.RewriteAppendsOneStatic | src/main/java/io/moderne/receipes/NonOverridableMethodsNoInstanceDataToStaticRecipe.java:75-80 | a changed declaration has the old modifiers plus one `Static` at the end, holds exactly one `Static`, and is otherwise the same declaration |
| NonOverridableRecipe.RewriteIdempotent | src/main/java/io/moderne/receipes/NonOverridableMethodsNoInstanceDataToStaticRecipe.java:45-48 | deciding again on the result changes nothing, because the result is then static |
| NonOverridableRecipe.ParametersNotInspected | src/main/java/io/moderne/receipes/NonOverridableMethodsNoInstanceDataToStaticRecipe.java:73-75 | the decision does not depend on the method's name node or its parameter nodes; only the body is walked (the method type, which holds the name the serialization exemption looks at, is kept) |
| NonOverridableRecipe.Find | src/main/java/io/moderne/receipes/NonOverridableMethodsNoInstanceDataToStaticRecipe.java:91-94 | reducing the body over a fresh flag returns true iff some node of the body meets a trigger rule; no body gives false |
| NonOverridableRecipe.VisitIdentifier | src/main/java/io/moderne/receipes/NonOverridableMethodsNoInstanceDataToStaticRecipe.java:97-161 | the flag ends as its old value or the identifier's instance access; an early return when the flag is set loses nothing |
| NonOverridableRecipe.VisitMethodInvocation | src/main/java/io/moderne/receipes/NonOverridableMethodsNoInstanceDataToStaticRecipe.java:163-186 | the flag ends as its old value or the access of the call and its children; a call with a `select` contributes only its children |
| NonOverridableRecipe.VisitNewClass | src/main/java/io/moderne/receipes/NonOverridableMethodsNoInstanceDataToStaticRecipe.java:188-215 | the flag ends as its old value or the access of the `new` and its children; an enclosing expression or a static or top-level class contributes only its children |
| NonOverridableRecipe.HasInstanceAccessIffSomeOccurrence | src/main/java/io/moderne/receipes/NonOverridableMethodsNoInstanceDataToStaticRecipe.java:97-215 | the visitor's verdict equals "some entry of the pre-order list of nodes, each with its parent kind, meets a rule" |
| NonOverridableRecipe.TriggerInBodyDisqualifies | src/main/java/io/moderne/receipes/NonOverridableMethodsNoInstanceDataToStaticRecipe.java:73-82 | any node of the body that meets a rule leaves the method unchanged |
| NonOverridableRecipe.NoTriggerInBodyRewrites | src/main/java/io/moderne/receipes/NonOverridableMethodsNoInstanceDataToStaticRecipe.java:73-82 | a non-exempt candidate whose body has no node meeting a rule gets `Static` |
| NonOverridableRecipe.RecipeKeepsSkeleton | src/main/java/io/moderne/receipes/NonOverridableMethodsNoInstanceDataToStaticRecipe.java:76-79 | the recipe changes nothing in a tree but modifier lists |
| NonOverridableRecipe.RecipeIdempotent | src/main/java/io/moderne/receipes/NonOverridableMethodsNoInstanceDataToStaticRecipe.java:42-48 | a second pass over the same attributed tree changes nothing |
| NonOverridableRecipe.RulesIgnoreModifiers | src/main/java/io/moderne/receipes/NonOverridableMethodsNoInstanceDataToStaticRecipe.java:106-141 | neither the rules nor the parent kinds look at any modifier list |
| NonOverridableRecipe.VerdictIgnoresNestedRewrites | src/main/java/io/moderne/receipes/NonOverridableMethodsNoInstanceDataToStaticRecipe.java:43 | classifying a body after its nested declarations were rewritten gives the same verdict as on the body as written |
| NonOverridableRecipe.RecipeDecidesOnOriginalBody | src/main/java/io/moderne/receipes/NonOverridableMethodsNoInstanceDataToStaticRecipe.java:42-82 | in the whole-tree result a declaration gets `Static` iff it is a non-exempt candidate whose body as written has no instance access |
| NonOverridableRecipe.VisitTree | src/main/java/io/moderne/receipes/NonOverridableMethodsNoInstanceDataToStaticRecipe.java:42-83 | visiting a whole tree yields `RecipeResult`: every declaration, innermost first, replaced by its decision |
| NonOverridableScenarios.OverridablesAndConstructorsUnchanged | src/test/java/io/moderne/recepies/NonOverridableMethodsNoInstanceDataToStaticRecipeTest.java:23-89 | public, package-private and protected methods and a private constructor are unchanged |
| NonOverridableScenarios.InstanceFieldReadUnchanged | src/test/java/io/moderne/recepies/NonOverridableMethodsNoInstanceDataToStaticRecipeTest.java:92-160 | `return a;` in a private or final method, `return this;` and `return this.a;` leave the method unchanged |
| NonOverridableScenarios.InstanceMethodCallUnchanged | src/test/java/io/moderne/recepies/NonOverridableMethodsNoInstanceDataToStaticRecipeTest.java:138-148 | `method();` with an instance method leaves the caller unchanged |
| NonOverridableScenarios.InitializerAccessUnchanged | src/test/java/io/moderne/recepies/NonOverridableMethodsNoInstanceDataToStaticRecipeTest.java:174-199 | `int i = a;` and `int i = method();` leave the method unchanged |
| NonOverridableScenarios.InnerClassCreationUnchanged | src/test/java/io/moderne/recepies/NonOverridableMethodsNoInstanceDataToStaticRecipeTest.java:252-262 | `return new B();` with `B` an inner class leaves the method unchanged |
| NonOverridableScenarios.SerializationHooksUnchanged | src/test/java/io/moderne/recepies/NonOverridableMethodsNoInstanceDataToStaticRecipeTest.java:430-445 | the three hooks of a Serializable class with empty bodies are unchanged |
| NonOverridableScenarios.SelfRecursionUnchanged | src/test/java/io/moderne/recepies/NonOverridableMethodsNoInstanceDataToStaticRecipeTest.java:448-457 | `private int test() { return test(); }` is unchanged |
| NonOverridableScenarios.CrossRecursionUnchanged | src/test/java/io/moderne/recepies/NonOverridableMethodsNoInstanceDataToStaticRecipeTest.java:459-477 | two private methods calling each other: the whole class is unchanged |
| NonOverridableScenarios.NoInstanceAccessGetsStatic | src/test/java/io/moderne/recepies/NonOverridableMethodsNoInstanceDataToStaticRecipeTest.java:480-495 | `private int test() { return 0; }` becomes `private static`, alone and inside its class |
| NonOverridableScenarios.StaticMemberAccessGetsStatic | src/test/java/io/moderne/recepies/NonOverridableMethodsNoInstanceDataToStaticRecipeTest.java:497-537 | reading a static field or calling a static method does not prevent `static` |
| NonOverridableScenarios.ShadowingParameterGetsStatic | src/test/java/io/moderne/recepies/NonOverridableMethodsNoInstanceDataToStaticRecipeTest.java:556-578 | a parameter `a` shadowing field `a` does not prevent `static` |
| NonOverridableScenarios.OtherInstanceAccessGetsStatic | src/test/java/io/moderne/recepies/NonOverridableMethodsNoInstanceDataToStaticRecipeTest.java:580-645 | `a.field`, `a.method()` and `a.new B()` on a parameter `a` do not prevent `static` |
| NonOverridableScenarios.StaticNestedCreationGetsStatic | src/test/java/io/moderne/recepies/NonOverridableMethodsNoInstanceDataToStaticRecipeTest.java:647-666 | `new B()` of a static nested class does not prevent `static` |
| PrivateFinalRecipe.VisitMethodDeclaration | src/main/java/io/moderne/receipes/PrivateFinalMethodsNoInstanceDataStaticReceipe.java:44-73 | running the guards and `find` returns the declaration unchanged or with `Static` appended, and agrees with `Rewritten` |
| PrivateFinalRecipe.RewriteDecision | src/main/java/io/moderne/receipes/PrivateFinalMethodsNoInstanceDataStaticReceipe.java:47-70 | the result is the declaration or its `Static` form; it is the `Static` form iff the method is a candidate whose body has no instance access |
| PrivateFinalRecipe.NonCandidateUnchanged | src/main/java/io/moderne/receipes/PrivateFinalMethodsNoInstanceDataStaticReceipe.java:47-61 | an already static method, a constructor, or a method with neither `private` nor `final` is returned unchanged |
| PrivateFinalRecipe.RewriteAppendsOneStatic | src/main/java/io/moderne/receipes/PrivateFinalMethodsNoInstanceDataStaticReceipe.java:65-70 | a changed declaration has the old modifiers plus one `Static` at the end, holds exactly one `Static`, and is otherwise the same declaration |
| PrivateFinalRecipe.RewriteIdempotent | src/main/java/io/moderne/receipes/PrivateFinalMethodsNoInstanceDataStaticReceipe.java:47-50 | deciding again on the result changes nothing |
| PrivateFinalRecipe.ParametersNotInspected | src/main/java/io/moderne/receipes/PrivateFinalMethodsNoInstanceDataStaticReceipe.java:63-65 | the decision does not depend on the method's name node or its parameter nodes |
| PrivateFinalRecipe.Find | src/main/java/io/moderne/receipes/PrivateFinalMethodsNoInstanceDataStaticReceipe.java:81-84 | reducing the body over a fresh flag returns true iff some node of the body meets a trigger rule; no body gives false |
| PrivateFinalRecipe.VisitFieldAccess | src/main/java/io/moderne/receipes/PrivateFinalMethodsNoInstanceDataStaticReceipe.java:86-110 | the flag ends as its old value or the access of the field access and its children; only an identifier target that is a non-static class-owned field counts |
| PrivateFinalRecipe.VisitMethodInvocation | src/main/java/io/moderne/receipes/PrivateFinalMethodsNoInstanceDataStaticReceipe.java:113-129 | the flag ends as its old value or the access of the call and its children |
| PrivateFinalRecipe.VisitIdentifier | src/main/java/io/moderne/receipes/PrivateFinalMethodsNoInstanceDataStaticReceipe.java:131-159 | the flag ends as its old value or the identifier's access, which requires its nearest FieldAccess, VariableDeclarations or Block ancestor to be a Block |
| PrivateFinalRecipe.VisitNewClass | src/main/java/io/moderne/receipes/PrivateFinalMethodsNoInstanceDataStaticReceipe.java:161-180 | with no early return and the children visited twice, the flag still ends as its old value or the access of the `new` and its children |
| PrivateFinalRecipe.HasInstanceAccessIffSomeOccurrence | src/main/java/io/moderne/receipes/PrivateFinalMethodsNoInstanceDataStaticReceipe.java:86-180 | the visitor's verdict equals "some entry of the pre-order list of nodes, each with its scope, meets a rule" |
| PrivateFinalRecipe.TriggerInBodyDisqualifies | src/main/java/io/moderne/receipes/PrivateFinalMethodsNoInstanceDataStaticReceipe.java:63-72 | any node of the body that meets a rule leaves the method unchanged |
| PrivateFinalRecipe.NoTriggerInBodyRewrites | src/main/java/io/moderne/receipes/PrivateFinalMethodsNoInstanceDataStaticReceipe.java:63-72 | a candidate whose body has no node meeting a rule gets `Static` |
| PrivateFinalRecipe.RecipeKeepsSkeleton | src/main/java/io/moderne/receipes/PrivateFinalMethodsNoInstanceDataStaticReceipe.java:66-69 | the recipe changes nothing in a tree but modifier lists |
| PrivateFinalRecipe.RecipeIdempotent | src/main/java/io/moderne/receipes/PrivateFinalMethodsNoInstanceDataStaticReceipe.java:44-50 | a second pass over the same attributed tree changes nothing |
| PrivateFinalRecipe.RulesIgnoreModifiers | src/main/java/io/moderne/receipes/PrivateFinalMethodsNoInstanceDataStaticReceipe.java:96-155 | neither the rules nor the scopes look at any modifier list |
| PrivateFinalRecipe.VerdictIgnoresNestedRewrites | src/main/java/io/moderne/receipes/PrivateFinalMethodsNoInstanceDataStaticReceipe.java:45 | classifying a body after its nested declarations were rewritten gives the same verdict as on the body as written |
| PrivateFinalRecipe.RecipeDecidesOnOriginalBody | src/main/java/io/moderne/receipes/PrivateFinalMethodsNoInstanceDataStaticReceipe.java:44-72 | in the whole-tree result a declaration gets `Static` iff it is a candidate whose body as written has no instance access |
| PrivateFinalRecipe.VisitTree | src/main/java/io/moderne/receipes/PrivateFinalMethodsNoInstanceDataStaticReceipe.java:44-73 | visiting a whole tree yields `RecipeResult` |
| PrivateFinalScenarios.OverridablesAndConstructorsUnchanged | src/test/java/io/moderne/recepies/PrivateFinalMethodsNoInstanceDataStaticReceipeTest.java:16-50 | public, package-private and protected methods and a private constructor are unchanged |
| PrivateFinalScenarios.InstanceFieldReadUnchanged | src/test/java/io/moderne/recepies/PrivateFinalMethodsNoInstanceDataStaticReceipeTest.java:52-85 | `return a;` in a private or final method and `return this;` leave the method unchanged |
| PrivateFinalScenarios.InstanceMethodCallUnchanged | src/test/java/io/moderne/recepies/PrivateFinalMethodsNoInstanceDataStaticReceipeTest.java:98-108 | `method();` with an instance method leaves the caller unchanged |
| PrivateFinalScenarios.InnerClassCreationUnchanged | src/test/java/io/moderne/recepies/PrivateFinalMethodsNoInstanceDataStaticReceipeTest.java:123-133 | `return new B();` with `B` an inner class leaves the method unchanged |
| PrivateFinalScenarios.NoInstanceAccessGetsStatic | src/test/java/io/moderne/recepies/PrivateFinalMethodsNoInstanceDataStaticReceipeTest.java:147-162 | `private int test() { return 0; }` becomes `private static` |
| PrivateFinalScenarios.ShadowingParameterGetsStatic | src/test/java/io/moderne/recepies/PrivateFinalMethodsNoInstanceDataStaticReceipeTest.java:181-201 | a parameter `a` shadowing field `a` does not prevent `static` |
| PrivateFinalScenarios.OtherInstanceAccessGetsStatic | src/test/java/io/moderne/recepies/PrivateFinalMethodsNoInstanceDataStaticReceipeTest.java:203-243 | `a.new B()` and `a.field` on a parameter `a` do not prevent `static` |
| PrivateFinalScenarios.StaticNestedCreationGetsStatic | src/test/java/io/moderne/recepies/PrivateFinalMethodsNoInstanceDataStaticReceipeTest.java:245-264 | `new B()` of a static nested class does not prevent `static` |
| PrivateFinalScenarios.InitializerReadMissed | src/main/java/io/moderne/receipes/PrivateFinalMethodsNoInstanceDataStaticReceipe.java:141-147 | `final int test() { int i = a; return i; }` with `a` an instance field gets `Static`, while `int i = method();` is still seen |
| PrivateFinalScenarios.SerializationHooksGetStatic | src/main/java/io/moderne/receipes/PrivateFinalMethodsNoInstanceDataStaticReceipe.java:44-73 | the three serialization hooks of a Serializable class, with empty bodies, get `Static` |
| JavaTree.SomeNodeMeetsIffSomeOccurrence | src/main/java/io/moderne/receipes/NonOverridableMethodsNoInstanceDataToStaticRecipe.java:91-94 | a walk that sets its flag when a node meets a rule ends with "some node of the pre-order list, in its context, meets the rule" |
| JavaTree.SomeNodeMeetsAfterMapDecls | src/main/java/io/moderne/receipes/NonOverridableMethodsNoInstanceDataToStaticRecipe.java:43 | when rules and contexts ignore modifiers, rewriting only modifiers of declarations leaves the verdict unchanged |
| JavaTree.MapDeclsIdempotent | src/main/java/io/moderne/receipes/NonOverridableMethodsNoInstanceDataToStaticRecipe.java:42-83 | a bottom-up rewrite of declarations by an idempotent, modifier-only decision is idempotent |
| JavaTree.MapDeclsKeepsSkeleton | src/main/java/io/moderne/receipes/NonOverridableMethodsNoInstanceDataToStaticRecipe.java:76-79 | a bottom-up rewrite by a modifier-only decision keeps the tree apart from modifier lists |

## Left out

- Formatting and identity of the new modifier (`autoFormat`, `Tree.randomId()`, `Space.EMPTY`, `Markers.EMPTY`): a modifier is its type only.
- The debug print of the whole tree in the earlier recipe's `visitCompilationUnit`: console output.
- `getDisplayName` and `getDescription`: fixed strings.
- Name and type resolution: the field type, method type and class type of a node are given data, as OpenRewrite's attribution provides them. A `MethodMatcher` is reduced to the method's name and parameter type names. The declaring type's interfaces are a list of fully qualified names.
- The cast of `newClass.getType()` to `JavaType.Class`: the model's class type is either absent or a class, so the exception a non-class type would raise is not modelled.
- Children on which no rule can fire are left out of the tree: annotations, type parameters, return types, `throws` clauses, and the `extends` and `implements` clauses of class declarations. Their identifiers name types, not non-static class-owned fields, and annotation values are constants, so none of them can set the flag. Every other kind of node is `Other`, whose children hang directly under it.
- `JContainer` wrappers around argument and parameter lists are not separate levels of the tree. Neither recipe's context depends on them.
- The visitor instance of `AccessInstanceDataVisitor` has no fields. Its visit methods are module-level methods that take the flag and the cursor context as parameters.
- A method body is typed `J.Block` in the source. The model allows any node or none. `None` stands for a method without a body: `find` then reports no access and `Static` is appended. In the earlier recipe, an identifier with no FieldAccess, VariableDeclarations or Block ancestor inside the body (possible only when the root is not a Block) is left unclassified by the model, where `dropParentUntil` would throw `IllegalStateException`.
- Re-attribution after the rewrite is not modelled: a call site keeps the method type it had when the tree was attributed, so a callee made `static` still reads as non-static at its call sites in the same pass. Running the recipe again on re-parsed output can therefore make more callers eligible (`StaticMemberAccessGetsStatic` shows that a method whose only call is to a `static` method gets `static`).
- A call-graph fixpoint, under which a private method calling only eligible methods would itself become eligible, is not modelled: the code has none.

## Findings

| source | as written | input that shows it | evidently intended | confidence | as-written member | corrected member |
|---|---|---|---|---|---|---|
| src/main/java/io/moderne/receipes/PrivateFinalMethodsNoInstanceDataStaticReceipe.java:141-147 | an identifier is classified only if its nearest FieldAccess, VariableDeclarations or Block ancestor is a Block, so a bare identifier reading an instance field in a local variable's initializer is never seen (a field access such as `this.a` there is still caught by the field access rule); likewise a bare identifier below a field access target, such as `a` in `get(a).x` | `class A { int a = 0; final int test() { int i = a; return i; } }` gets `static` and no longer compiles | the method stays unchanged, as the later recipe's test `instanceAccessInVariableDeclaration` expects | high; not executed | PrivateFinalScenarios.InitializerReadMissed | NonOverridableScenarios.InitializerAccessUnchanged |
| src/main/java/io/moderne/receipes/PrivateFinalMethodsNoInstanceDataStaticReceipe.java:44-73 | no exemption for serialization hooks | `class A implements java.io.Serializable { private void writeObject(java.io.ObjectOutputStream out) {} }` gets `static`, and serialization then ignores the hook | the hooks stay unchanged, as the later recipe's test `methodsException` expects | high; not executed | PrivateFinalScenarios.SerializationHooksGetStatic | NonOverridableRecipe.SerializationHookUnchanged |
