/**
 * NonOverridableMethodsNoInstanceDataToStaticRecipe: a `private` or `final`
 * method whose body does not touch instance data gets the `static` modifier.
 *
 * The decision has two parts: a chain of guards on the declaration
 * (`VisitMethodDeclaration`), and AccessInstanceDataVisitor, a walk of the
 * body that sets a shared flag when it meets an instance access. The walk is
 * proved against `HasInstanceAccess`, which says declaratively "some node of
 * the body meets one of the three trigger rules in the context it is visited
 * in"; the guards and the rewrite are specified by `Rewritten`.
 */
module NonOverridableRecipe {
  import opened JavaTree

  /** What the cursor's parent of a visited node is, as far as `visitIdentifier`
      distinguishes it: one of the five node kinds it discards identifiers
      under, the JLeftPadded that holds the name segment of a FieldAccess, or
      anything else (a JRightPadded, a JLeftPadded elsewhere, any other node,
      the root of the walk). */
  datatype Parent =
    | NamedVariableParent
    | ClassDeclParent
    | MethodDeclParent
    | MethodInvocationParent
    | NewClassParent
    | FieldAccessNameParent
    | OtherParent

  /** The parent seen by a child of `p` that hangs by `link`; it does not
      depend on where `p` itself hangs. */
  function ParentOf(p: Node, link: Link, outer: Parent): Parent {
    match link
    case Direct =>
      (match p
       case NamedVariable(_, _) => NamedVariableParent
       case ClassDecl(_, _) => ClassDeclParent
       case MethodDecl(_) => MethodDeclParent
       case MethodInvocation(_, _, _, _) => MethodInvocationParent
       case NewClass(_, _, _, _, _) => NewClassParent
       case _ => OtherParent)
    case LeftPadded => if p.FieldAccess? then FieldAccessNameParent else OtherParent
    case RightPadded => OtherParent
  }

  /** An identifier under any of these parents is never classified: a declared
      name, a method or class name, the name of an invoked method or created
      class (handled by their own rules), or the name segment of a field access. */
  predicate DiscardsIdentifier(parent: Parent) {
    parent != OtherParent
  }

  /** The field type names a non-static field owned by a class. */
  predicate IsInstanceField(fieldType: Option<VariableType>) {
    fieldType.Some? && fieldType.value.ownerIsClass && !fieldType.value.isStatic
  }

  /** The three trigger rules, each for the node kind it is about. */
  predicate Triggers(n: Node, parent: Parent) {
    match n
    case Ident(_, fieldType) => !DiscardsIdentifier(parent) && IsInstanceField(fieldType)
    case MethodInvocation(select, _, _, methodType) =>
      select.None? && methodType.Some? && !methodType.value.isStatic
    case NewClass(enclosing, _, _, _, classType) =>
      enclosing.None? && classType.Some? && classType.value.hasOwningClass && !classType.value.isStatic
    case _ => false
  }

  /** Some node of the tree rooted at `n`, visited under `parent`, meets a
      trigger rule. */
  predicate HasInstanceAccess(n: Node, parent: Parent) {
    SomeNodeMeets(n, parent, ParentOf, Triggers)
  }

  /** Some child of `n` (visited under `parent`) has a node meeting a rule. */
  predicate ChildHasInstanceAccess(n: Node, parent: Parent) {
    SomeEarlierChildMeets(n, parent, ParentOf, Triggers, |Children(n)|)
  }

  /** A node has an instance access iff it meets a rule itself or one of its
      children has one. */
  lemma HasInstanceAccessUnfold(n: Node, parent: Parent)
    ensures HasInstanceAccess(n, parent) == (Triggers(n, parent) || ChildHasInstanceAccess(n, parent))
  {
  }

  /** The verdict of `find` on a method body; no body means no access. */
  predicate BodyHasInstanceAccess(body: Option<Node>) {
    body.Some? && HasInstanceAccess(body.value, OtherParent)
  }

  // ---------------------------------------------------------------------
  // AccessInstanceDataVisitor. The visitor has no state of its own; the
  // AtomicBoolean it reduces over is passed to every visit, and the cursor's
  // parent is passed as `parent`.
  // ---------------------------------------------------------------------

  /** JavaIsoVisitor's dispatch on the node kind. Node kinds without an
      override are visited by the default traversal of their children. */
  method Visit(n: Node, parent: Parent, hasInstanceAccess: AtomicBool)
    modifies hasInstanceAccess
    ensures hasInstanceAccess.value == (old(hasInstanceAccess.value) || HasInstanceAccess(n, parent))
    decreases Size(n), 2
  {
    HasInstanceAccessUnfold(n, parent);
    match n
    case Ident(_, _) => VisitIdentifier(n, parent, hasInstanceAccess);
    case MethodInvocation(_, _, _, _) => VisitMethodInvocation(n, parent, hasInstanceAccess);
    case NewClass(_, _, _, _, _) => VisitNewClass(n, parent, hasInstanceAccess);
    case _ => VisitChildren(n, parent, hasInstanceAccess);
  }

  /** The default traversal (`super.visitX`): every child, in order. */
  method VisitChildren(n: Node, parent: Parent, hasInstanceAccess: AtomicBool)
    modifies hasInstanceAccess
    ensures hasInstanceAccess.value == (old(hasInstanceAccess.value) || ChildHasInstanceAccess(n, parent))
    decreases Size(n), 0
  {
    var children := Children(n);
    var i := 0;
    while i < |children|
      invariant 0 <= i <= |children|
      invariant hasInstanceAccess.value ==
        (old(hasInstanceAccess.value) || SomeEarlierChildMeets(n, parent, ParentOf, Triggers, i))
    {
      var (child, link) := children[i];
      Visit(child, ParentOf(n, link, parent), hasInstanceAccess);
      SomeEarlierChildMeetsStep(n, parent, ParentOf, Triggers, i);
      i := i + 1;
    }
  }

  method VisitIdentifier(id: Node, parent: Parent, hasInstanceAccess: AtomicBool)
    requires id.Ident?
    modifies hasInstanceAccess
    ensures hasInstanceAccess.value == (old(hasInstanceAccess.value) || HasInstanceAccess(id, parent))
    decreases Size(id), 1
  {
    HasInstanceAccessUnfold(id, parent);
    // Return quickly once an instance access was found.
    if hasInstanceAccess.value {
      return;
    }
    VisitChildren(id, parent, hasInstanceAccess);
    if DiscardsIdentifier(parent) {
      return;
    }
    if id.fieldType.Some? {
      if id.fieldType.value.ownerIsClass && !id.fieldType.value.isStatic {
        hasInstanceAccess.Set(true);
      }
    }
  }

  method VisitMethodInvocation(mi: Node, parent: Parent, hasInstanceAccess: AtomicBool)
    requires mi.MethodInvocation?
    modifies hasInstanceAccess
    ensures hasInstanceAccess.value == (old(hasInstanceAccess.value) || HasInstanceAccess(mi, parent))
    decreases Size(mi), 1
  {
    HasInstanceAccessUnfold(mi, parent);
    if hasInstanceAccess.value {
      return;
    }
    VisitChildren(mi, parent, hasInstanceAccess);
    // A call on an explicit receiver is not an access to this instance.
    if mi.select.Some? {
      return;
    }
    if mi.methodType.Some? && !mi.methodType.value.isStatic {
      hasInstanceAccess.Set(true);
    }
  }

  method VisitNewClass(nc: Node, parent: Parent, hasInstanceAccess: AtomicBool)
    requires nc.NewClass?
    modifies hasInstanceAccess
    ensures hasInstanceAccess.value == (old(hasInstanceAccess.value) || HasInstanceAccess(nc, parent))
    decreases Size(nc), 1
  {
    HasInstanceAccessUnfold(nc, parent);
    if hasInstanceAccess.value {
      return;
    }
    VisitChildren(nc, parent, hasInstanceAccess);
    // An explicit enclosing instance (`a.new B()`) is not this instance.
    if nc.enclosing.Some? {
      return;
    }
    if nc.classType.Some? && nc.classType.value.hasOwningClass {
      if !nc.classType.value.isStatic {
        hasInstanceAccess.Set(true);
      }
    }
  }

  /** `find`: reduce the body over a fresh flag; the walk starts at the root
      of the cursor, so the body itself is under `OtherParent`. */
  method Find(body: Option<Node>) returns (found: bool)
    ensures found == BodyHasInstanceAccess(body)
  {
    var hasInstanceAccess := new AtomicBool();
    if body.Some? {
      Visit(body.value, OtherParent, hasInstanceAccess);
    }
    found := hasInstanceAccess.value;
  }

  // ---------------------------------------------------------------------
  // visitMethodDeclaration
  // ---------------------------------------------------------------------

  /** The three MethodMatchers: any declaring type, this name, exactly these
      parameter types (sections 2.3, 3.4 and 3.5 of the Java Object
      Serialization Specification). */
  const SerializationHooks: seq<(string, seq<string>)> := [
    ("writeObject", ["java.io.ObjectOutputStream"]),
    ("readObject", ["java.io.ObjectInputStream"]),
    ("readObjectNoData", [])
  ]

  predicate MatchesSerializationHook(mt: MethodType) {
    exists k :: 0 <= k < |SerializationHooks| &&
      mt.name == SerializationHooks[k].0 && mt.parameterTypes == SerializationHooks[k].1
  }

  /** A serialization hook declared on a type that directly implements
      java.io.Serializable. */
  predicate IsSerializationHook(mt: MethodType) {
    && (exists i :: 0 <= i < |mt.declaringInterfaces| && mt.declaringInterfaces[i] == "java.io.Serializable")
    && MatchesSerializationHook(mt)
  }

  /** Not static, not a constructor, and private or final. */
  predicate IsCandidate(d: MethodDeclaration) {
    && !HasModifier(d, Static)
    && !d.isConstructor
    && (HasModifier(d, Private) || HasModifier(d, Final))
  }

  predicate IsExempt(d: MethodDeclaration) {
    d.methodType.Some? && IsSerializationHook(d.methodType.value)
  }

  function WithStatic(d: MethodDeclaration): MethodDeclaration {
    d.(modifiers := d.modifiers + [Static])
  }

  /** The declaration `visitMethodDeclaration` returns for `d` (whose own
      children the recipe has already visited). */
  function Rewritten(d: MethodDeclaration): MethodDeclaration {
    if HasModifier(d, Static) then d
    else if d.isConstructor then d
    else if !(HasModifier(d, Private) || HasModifier(d, Final)) then d
    else if IsExempt(d) then d
    else if !BodyHasInstanceAccess(d.body) then WithStatic(d)
    else d
  }

  /** The guard chain and the rewrite, with `find` run on the body. */
  method VisitMethodDeclaration(d: MethodDeclaration) returns (r: MethodDeclaration)
    ensures r == Rewritten(d)
    ensures r == d || r == WithStatic(d)
  {
    if HasModifier(d, Static) {
      return d;
    }
    if d.isConstructor {
      return d;
    }
    if !(HasModifier(d, Private) || HasModifier(d, Final)) {
      return d;
    }
    if d.methodType.Some? {
      var mt := d.methodType.value;
      if IsSerializationHook(mt) {
        return d;
      }
    }
    var found := Find(d.body);
    r := d;
    if !found {
      r := WithStatic(d);
    }
  }

  /** The whole tree after the recipe: every method declaration, innermost
      first, replaced by its `Rewritten` form. */
  function RecipeResult(n: Node): Node {
    MapDecls(n, Rewritten)
  }

  /** The recipe's visitor over a whole tree. */
  method VisitTree(n: Node) returns (r: Node)
    ensures r == RecipeResult(n)
    decreases n
  {
    match n
    case Ident(_, _) =>
      r := n;
    case FieldAccess(t, nm) =>
      var t' := VisitTree(t);
      var nm' := VisitTree(nm);
      r := FieldAccess(t', nm');
    case MethodInvocation(s, nm, args, mt) =>
      var s' := VisitOpt(s);
      var nm' := VisitTree(nm);
      var args' := VisitAll(args);
      r := MethodInvocation(s', nm', args', mt);
    case NewClass(e, c, args, b, ct) =>
      var e' := VisitOpt(e);
      var c' := VisitOpt(c);
      var args' := VisitAll(args);
      var b' := VisitOpt(b);
      r := NewClass(e', c', args', b', ct);
    case VarDecls(t, vs) =>
      var t' := VisitOpt(t);
      var vs' := VisitAll(vs);
      r := VarDecls(t', vs');
    case NamedVariable(nm, init) =>
      var nm' := VisitTree(nm);
      var init' := VisitOpt(init);
      r := NamedVariable(nm', init');
    case ClassDecl(nm, ms) =>
      var nm' := VisitTree(nm);
      var ms' := VisitTree(ms);
      r := ClassDecl(nm', ms');
    case MethodDecl(d) =>
      // super.visitMethodDeclaration: the declaration's own children first
      var name' := VisitTree(d.name);
      var parameters' := VisitAll(d.parameters);
      var body' := VisitOpt(d.body);
      var d' := VisitMethodDeclaration(d.(name := name', parameters := parameters', body := body'));
      assert d.(name := name', parameters := parameters', body := body') == MapDeclChildren(d, Rewritten);
      r := MethodDecl(d');
    case Block(ss) =>
      var ss' := VisitAll(ss);
      r := Block(ss');
    case Other(cs) =>
      var cs' := VisitAll(cs);
      r := Other(cs');
  }

  method VisitOpt(o: Option<Node>) returns (r: Option<Node>)
    ensures r == MapOpt(o, Rewritten)
    decreases o
  {
    match o
    case None => r := None;
    case Some(x) =>
      var x' := VisitTree(x);
      r := Some(x');
  }

  method VisitAll(ns: seq<Node>) returns (r: seq<Node>)
    ensures r == MapAll(ns, Rewritten)
    decreases ns
  {
    r := [];
    var i := 0;
    while i < |ns|
      invariant 0 <= i <= |ns|
      invariant |r| == i
      invariant forall j :: 0 <= j < i ==> r[j] == MapDecls(ns[j], Rewritten)
    {
      var x := VisitTree(ns[i]);
      r := r + [x];
      i := i + 1;
    }
  }

  // ---------------------------------------------------------------------
  // Properties
  // ---------------------------------------------------------------------

  /** The verdict of the walk is "some node meets a rule": the flat list of
      every node of the tree, each with its parent, has an entry that does. */
  lemma HasInstanceAccessIffSomeOccurrence(n: Node, parent: Parent)
    ensures HasInstanceAccess(n, parent) <==> AnyMeets(Occurrences(n, parent, ParentOf), Triggers)
  {
    SomeNodeMeetsIffSomeOccurrence(n, parent, ParentOf, Triggers);
  }

  /** The decision: either the declaration is returned as it is, or with one
      `Static` appended; the latter exactly for a candidate that is not a
      serialization hook and whose body has no instance access. */
  lemma RewriteDecision(d: MethodDeclaration)
    ensures Rewritten(d) == d || Rewritten(d) == WithStatic(d)
    ensures Rewritten(d) == WithStatic(d) <==> IsCandidate(d) && !IsExempt(d) && !BodyHasInstanceAccess(d.body)
  {
    assert |WithStatic(d).modifiers| != |d.modifiers|;
  }

  /** Already static, a constructor, or neither private nor final: unchanged. */
  lemma NonCandidateUnchanged(d: MethodDeclaration)
    requires HasModifier(d, Static) || d.isConstructor || !(HasModifier(d, Private) || HasModifier(d, Final))
    ensures Rewritten(d) == d
  {
  }

  /** writeObject(ObjectOutputStream), readObject(ObjectInputStream) and
      readObjectNoData() of a type that directly implements
      java.io.Serializable are never changed, whatever their body. */
  lemma SerializationHookUnchanged(d: MethodDeclaration)
    requires d.methodType.Some?
    requires "java.io.Serializable" in d.methodType.value.declaringInterfaces
    requires var mt := d.methodType.value;
      || (mt.name == "writeObject" && mt.parameterTypes == ["java.io.ObjectOutputStream"])
      || (mt.name == "readObject" && mt.parameterTypes == ["java.io.ObjectInputStream"])
      || (mt.name == "readObjectNoData" && mt.parameterTypes == [])
    ensures Rewritten(d) == d
  {
    var mt := d.methodType.value;
    var i :| 0 <= i < |mt.declaringInterfaces| && mt.declaringInterfaces[i] == "java.io.Serializable";
    if mt.name == "writeObject" && mt.parameterTypes == ["java.io.ObjectOutputStream"] {
      assert mt.name == SerializationHooks[0].0 && mt.parameterTypes == SerializationHooks[0].1;
    } else if mt.name == "readObject" && mt.parameterTypes == ["java.io.ObjectInputStream"] {
      assert mt.name == SerializationHooks[1].0 && mt.parameterTypes == SerializationHooks[1].1;
    } else {
      assert mt.name == SerializationHooks[2].0 && mt.parameterTypes == SerializationHooks[2].1;
    }
  }

  /** A rewritten declaration has exactly one `Static`, at the end of its
      modifier list, and is otherwise the declaration it came from. */
  lemma RewriteAppendsOneStatic(d: MethodDeclaration)
    requires Rewritten(d) != d
    ensures Rewritten(d).modifiers == d.modifiers + [Static]
    ensures multiset(Rewritten(d).modifiers)[Static] == 1
    ensures Rewritten(d).(modifiers := d.modifiers) == d
  {
    assert Static !in multiset(d.modifiers);
  }

  /** Running the decision on its own output changes nothing. */
  lemma RewriteIdempotent(d: MethodDeclaration)
    ensures Rewritten(Rewritten(d)) == Rewritten(d)
  {
    if Rewritten(d) != d {
      assert HasModifier(WithStatic(d), Static);
    }
  }

  /** A node anywhere in the body that meets a trigger rule disqualifies the
      method: an implicit-receiver call of a non-static method, a non-static
      class-owned field read in a classified position, or `new` of an inner
      class without an enclosing instance. */
  lemma TriggerInBodyDisqualifies(d: MethodDeclaration, k: nat)
    requires d.body.Some?
    requires var occ := Occurrences(d.body.value, OtherParent, ParentOf);
      k < |occ| && Triggers(occ[k].0, occ[k].1)
    ensures Rewritten(d) == d
  {
    HasInstanceAccessIffSomeOccurrence(d.body.value, OtherParent);
  }

  /** Conversely a candidate that is not a serialization hook, and whose body
      has no node meeting a trigger rule, gets `Static`. */
  lemma NoTriggerInBodyRewrites(d: MethodDeclaration)
    requires IsCandidate(d) && !IsExempt(d) && d.body.Some?
    requires var occ := Occurrences(d.body.value, OtherParent, ParentOf);
      forall k :: 0 <= k < |occ| ==> !Triggers(occ[k].0, occ[k].1)
    ensures Rewritten(d) == WithStatic(d)
  {
    HasInstanceAccessIffSomeOccurrence(d.body.value, OtherParent);
  }

  /** Only the body is walked: the parameters, and the name, play no part in
      the decision, so a parameter never disqualifies a method. */
  lemma ParametersNotInspected(d: MethodDeclaration, name: Node, parameters: seq<Node>)
    ensures Rewritten(d.(name := name, parameters := parameters)) == Rewritten(d).(name := name, parameters := parameters)
  {
    var e := d.(name := name, parameters := parameters);
    assert e.modifiers == d.modifiers && e.body == d.body;
    assert WithStatic(e) == WithStatic(d).(name := name, parameters := parameters);
  }

  lemma RewrittenIsModifierOnlyAndIdempotent()
    ensures ChangesModifiersOnly(Rewritten) && Idempotent(Rewritten)
  {
    forall d | true
      ensures Rewritten(d) == d.(modifiers := Rewritten(d).modifiers)
      ensures Rewritten(Rewritten(d)) == Rewritten(d)
    {
      RewriteIdempotent(d);
    }
  }

  /** The recipe changes nothing in the tree but modifier lists. */
  lemma RecipeKeepsSkeleton(n: Node)
    ensures Skeleton(RecipeResult(n)) == Skeleton(n)
  {
    RewrittenIsModifierOnlyAndIdempotent();
    MapDeclsKeepsSkeleton(n, Rewritten);
  }

  /** Running the recipe on its own output changes nothing. */
  lemma RecipeIdempotent(n: Node)
    ensures RecipeResult(RecipeResult(n)) == RecipeResult(n)
  {
    RewrittenIsModifierOnlyAndIdempotent();
    MapDeclsIdempotent(n, Rewritten);
  }

  /** The rules and the parent kinds do not look at modifier lists. */
  lemma RulesIgnoreModifiers()
    ensures forall x, p :: Triggers(Skeleton(x), p) == Triggers(x, p)
    ensures forall x, l, p :: ParentOf(Skeleton(x), l, p) == ParentOf(x, l, p)
  {
  }

  /** Nested declarations are rewritten before the enclosing method is
      classified; that cannot change the enclosing method's verdict. */
  lemma VerdictIgnoresNestedRewrites(n: Node, parent: Parent)
    ensures HasInstanceAccess(RecipeResult(n), parent) == HasInstanceAccess(n, parent)
  {
    RewrittenIsModifierOnlyAndIdempotent();
    RulesIgnoreModifiers();
    SomeNodeMeetsAfterMapDecls(n, parent, ParentOf, Triggers, Rewritten);
  }

  /** So in the whole-tree result a method declaration gets `Static` exactly
      when it is a candidate, not a serialization hook, and its body as
      written has no instance access. */
  lemma RecipeDecidesOnOriginalBody(d: MethodDeclaration)
    ensures var d1 := MapDeclChildren(d, Rewritten);
      RecipeResult(MethodDecl(d)) ==
        if IsCandidate(d) && !IsExempt(d) && !BodyHasInstanceAccess(d.body) then MethodDecl(WithStatic(d1)) else MethodDecl(d1)
  {
    if d.body.Some? {
      VerdictIgnoresNestedRewrites(d.body.value, OtherParent);
    }
  }
}
