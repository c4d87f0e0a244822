/**
 * PrivateFinalMethodsNoInstanceDataStaticReceipe, the earlier form of the
 * recipe: a `private` or `final` method whose body does not touch instance
 * data gets the `static` modifier.
 *
 * Its AccessInstanceDataVisitor differs from the later one in how it decides
 * whether an identifier is a read of instance data: it looks for the nearest
 * enclosing FieldAccess, VariableDeclarations or Block and classifies the
 * identifier only when that is a Block; a field access `x.f` is checked by a
 * rule of its own on its target `x`. It has no exemption for serialization
 * hooks, and its `visitNewClass` has no early return and visits the
 * children twice.
 */
module PrivateFinalRecipe {
  import opened JavaTree

  /** The nearest strict ancestor of a visited node that is a FieldAccess, a
      VariableDeclarations or a Block; `NoScope` above the body's root,
      where none has been met yet. */
  datatype Scope = FieldAccessScope | VarDeclsScope | BlockScope | NoScope

  /** The scope seen by the children of `p`; padding never matches, so the
      link does not matter. */
  function ScopeOf(p: Node, link: Link, outer: Scope): Scope {
    match p
    case FieldAccess(_, _) => FieldAccessScope
    case VarDecls(_, _) => VarDeclsScope
    case Block(_) => BlockScope
    case _ => outer
  }

  /** The field type names a non-static field owned by a class. */
  predicate IsInstanceField(fieldType: Option<VariableType>) {
    fieldType.Some? && fieldType.value.ownerIsClass && !fieldType.value.isStatic
  }

  /** The four trigger rules, each for the node kind it is about. */
  predicate Triggers(n: Node, scope: Scope) {
    match n
    case FieldAccess(target, _) => target.Ident? && IsInstanceField(target.fieldType)
    case Ident(_, fieldType) => scope == BlockScope && IsInstanceField(fieldType)
    case MethodInvocation(select, _, _, methodType) =>
      select.None? && methodType.Some? && !methodType.value.isStatic
    case NewClass(enclosing, _, _, _, classType) =>
      enclosing.None? && classType.Some? && classType.value.hasOwningClass && !classType.value.isStatic
    case _ => false
  }

  /** Some node of the tree rooted at `n`, visited in `scope`, meets a rule. */
  predicate HasInstanceAccess(n: Node, scope: Scope) {
    SomeNodeMeets(n, scope, ScopeOf, Triggers)
  }

  predicate ChildHasInstanceAccess(n: Node, scope: Scope) {
    SomeEarlierChildMeets(n, scope, ScopeOf, Triggers, |Children(n)|)
  }

  lemma HasInstanceAccessUnfold(n: Node, scope: Scope)
    ensures HasInstanceAccess(n, scope) == (Triggers(n, scope) || ChildHasInstanceAccess(n, scope))
  {
  }

  /** The verdict of `find` on a method body; no body means no access. */
  predicate BodyHasInstanceAccess(body: Option<Node>) {
    body.Some? && HasInstanceAccess(body.value, NoScope)
  }

  // ---------------------------------------------------------------------
  // AccessInstanceDataVisitor. The AtomicBoolean it reduces over is passed
  // to every visit, and what the cursor's ancestors say is passed as `scope`.
  // ---------------------------------------------------------------------

  method Visit(n: Node, scope: Scope, hasInstanceAccess: AtomicBool)
    modifies hasInstanceAccess
    ensures hasInstanceAccess.value == (old(hasInstanceAccess.value) || HasInstanceAccess(n, scope))
    decreases Size(n), 2
  {
    HasInstanceAccessUnfold(n, scope);
    match n
    case FieldAccess(_, _) => VisitFieldAccess(n, scope, hasInstanceAccess);
    case Ident(_, _) => VisitIdentifier(n, scope, hasInstanceAccess);
    case MethodInvocation(_, _, _, _) => VisitMethodInvocation(n, scope, hasInstanceAccess);
    case NewClass(_, _, _, _, _) => VisitNewClass(n, scope, hasInstanceAccess);
    case _ => VisitChildren(n, scope, hasInstanceAccess);
  }

  /** The default traversal (`super.visitX`): every child, in order. */
  method VisitChildren(n: Node, scope: Scope, hasInstanceAccess: AtomicBool)
    modifies hasInstanceAccess
    ensures hasInstanceAccess.value == (old(hasInstanceAccess.value) || ChildHasInstanceAccess(n, scope))
    decreases Size(n), 0
  {
    var children := Children(n);
    var i := 0;
    while i < |children|
      invariant 0 <= i <= |children|
      invariant hasInstanceAccess.value ==
        (old(hasInstanceAccess.value) || SomeEarlierChildMeets(n, scope, ScopeOf, Triggers, i))
    {
      var (child, link) := children[i];
      Visit(child, ScopeOf(n, link, scope), hasInstanceAccess);
      SomeEarlierChildMeetsStep(n, scope, ScopeOf, Triggers, i);
      i := i + 1;
    }
  }

  method VisitFieldAccess(fa: Node, scope: Scope, hasInstanceAccess: AtomicBool)
    requires fa.FieldAccess?
    modifies hasInstanceAccess
    ensures hasInstanceAccess.value == (old(hasInstanceAccess.value) || HasInstanceAccess(fa, scope))
    decreases Size(fa), 1
  {
    HasInstanceAccessUnfold(fa, scope);
    // Return quickly once an instance access was found.
    if hasInstanceAccess.value {
      return;
    }
    VisitChildren(fa, scope, hasInstanceAccess);
    // Only a target that is a plain identifier is looked at.
    if fa.target.Ident? {
      var fieldType := fa.target.fieldType;
      if fieldType.Some? && fieldType.value.ownerIsClass {
        if !fieldType.value.isStatic {
          hasInstanceAccess.Set(true);
        }
      }
    }
  }

  method VisitMethodInvocation(mi: Node, scope: Scope, hasInstanceAccess: AtomicBool)
    requires mi.MethodInvocation?
    modifies hasInstanceAccess
    ensures hasInstanceAccess.value == (old(hasInstanceAccess.value) || HasInstanceAccess(mi, scope))
    decreases Size(mi), 1
  {
    HasInstanceAccessUnfold(mi, scope);
    if hasInstanceAccess.value {
      return;
    }
    VisitChildren(mi, scope, hasInstanceAccess);
    // Only calls with an implicit receiver are looked at.
    if mi.select.None? {
      if mi.methodType.Some? && !mi.methodType.value.isStatic {
        hasInstanceAccess.Set(true);
      }
    }
  }

  method VisitIdentifier(id: Node, scope: Scope, hasInstanceAccess: AtomicBool)
    requires id.Ident?
    modifies hasInstanceAccess
    ensures hasInstanceAccess.value == (old(hasInstanceAccess.value) || HasInstanceAccess(id, scope))
    decreases Size(id), 1
  {
    HasInstanceAccessUnfold(id, scope);
    if hasInstanceAccess.value {
      return;
    }
    VisitChildren(id, scope, hasInstanceAccess);
    // dropParentUntil(FieldAccess | VariableDeclarations | Block) must land on a Block.
    if scope != BlockScope {
      return;
    }
    if id.fieldType.Some? && id.fieldType.value.ownerIsClass {
      if !id.fieldType.value.isStatic {
        hasInstanceAccess.Set(true);
      }
    }
  }

  /** No early return here, and the children are visited a second time after
      the rule: the flag is only ever set, so neither changes the verdict. */
  method VisitNewClass(nc: Node, scope: Scope, hasInstanceAccess: AtomicBool)
    requires nc.NewClass?
    modifies hasInstanceAccess
    ensures hasInstanceAccess.value == (old(hasInstanceAccess.value) || HasInstanceAccess(nc, scope))
    decreases Size(nc), 1
  {
    HasInstanceAccessUnfold(nc, scope);
    VisitChildren(nc, scope, hasInstanceAccess);
    if nc.enclosing.None? {
      if nc.classType.Some? && nc.classType.value.hasOwningClass {
        if !nc.classType.value.isStatic {
          hasInstanceAccess.Set(true);
        }
      }
    }
    VisitChildren(nc, scope, hasInstanceAccess);
  }

  /** `find`: reduce the body over a fresh flag. */
  method Find(body: Option<Node>) returns (found: bool)
    ensures found == BodyHasInstanceAccess(body)
  {
    var hasInstanceAccess := new AtomicBool();
    if body.Some? {
      Visit(body.value, NoScope, hasInstanceAccess);
    }
    found := hasInstanceAccess.value;
  }

  // ---------------------------------------------------------------------
  // visitMethodDeclaration
  // ---------------------------------------------------------------------

  /** Not static, not a constructor, and private or final. */
  predicate IsCandidate(d: MethodDeclaration) {
    && !HasModifier(d, Static)
    && !d.isConstructor
    && (HasModifier(d, Private) || HasModifier(d, Final))
  }

  function WithStatic(d: MethodDeclaration): MethodDeclaration {
    d.(modifiers := d.modifiers + [Static])
  }

  /** The declaration `visitMethodDeclaration` returns for `d` (whose own
      children the recipe has already visited). */
  function Rewritten(d: MethodDeclaration): MethodDeclaration {
    if HasModifier(d, Static) then d
    else if d.isConstructor then d
    else if !(HasModifier(d, Private) || HasModifier(d, Final)) then d
    else if !BodyHasInstanceAccess(d.body) then WithStatic(d)
    else d
  }

  method VisitMethodDeclaration(d: MethodDeclaration) returns (r: MethodDeclaration)
    ensures r == Rewritten(d)
    ensures r == d || r == WithStatic(d)
  {
    if HasModifier(d, Static) {
      return d;
    }
    if d.isConstructor {
      return d;
    }
    if !(HasModifier(d, Private) || HasModifier(d, Final)) {
      return d;
    }
    var found := Find(d.body);
    r := d;
    if !found {
      r := WithStatic(d);
    }
  }

  /** The whole tree after the recipe: every method declaration, innermost
      first, replaced by its `Rewritten` form. */
  function RecipeResult(n: Node): Node {
    MapDecls(n, Rewritten)
  }

  /** The recipe's visitor over a whole tree. */
  method VisitTree(n: Node) returns (r: Node)
    ensures r == RecipeResult(n)
    decreases n
  {
    match n
    case Ident(_, _) =>
      r := n;
    case FieldAccess(t, nm) =>
      var t' := VisitTree(t);
      var nm' := VisitTree(nm);
      r := FieldAccess(t', nm');
    case MethodInvocation(s, nm, args, mt) =>
      var s' := VisitOpt(s);
      var nm' := VisitTree(nm);
      var args' := VisitAll(args);
      r := MethodInvocation(s', nm', args', mt);
    case NewClass(e, c, args, b, ct) =>
      var e' := VisitOpt(e);
      var c' := VisitOpt(c);
      var args' := VisitAll(args);
      var b' := VisitOpt(b);
      r := NewClass(e', c', args', b', ct);
    case VarDecls(t, vs) =>
      var t' := VisitOpt(t);
      var vs' := VisitAll(vs);
      r := VarDecls(t', vs');
    case NamedVariable(nm, init) =>
      var nm' := VisitTree(nm);
      var init' := VisitOpt(init);
      r := NamedVariable(nm', init');
    case ClassDecl(nm, ms) =>
      var nm' := VisitTree(nm);
      var ms' := VisitTree(ms);
      r := ClassDecl(nm', ms');
    case MethodDecl(d) =>
      // super.visitMethodDeclaration: the declaration's own children first
      var name' := VisitTree(d.name);
      var parameters' := VisitAll(d.parameters);
      var body' := VisitOpt(d.body);
      var d' := VisitMethodDeclaration(d.(name := name', parameters := parameters', body := body'));
      assert d.(name := name', parameters := parameters', body := body') == MapDeclChildren(d, Rewritten);
      r := MethodDecl(d');
    case Block(ss) =>
      var ss' := VisitAll(ss);
      r := Block(ss');
    case Other(cs) =>
      var cs' := VisitAll(cs);
      r := Other(cs');
  }

  method VisitOpt(o: Option<Node>) returns (r: Option<Node>)
    ensures r == MapOpt(o, Rewritten)
    decreases o
  {
    match o
    case None => r := None;
    case Some(x) =>
      var x' := VisitTree(x);
      r := Some(x');
  }

  method VisitAll(ns: seq<Node>) returns (r: seq<Node>)
    ensures r == MapAll(ns, Rewritten)
    decreases ns
  {
    r := [];
    var i := 0;
    while i < |ns|
      invariant 0 <= i <= |ns|
      invariant |r| == i
      invariant forall j :: 0 <= j < i ==> r[j] == MapDecls(ns[j], Rewritten)
    {
      var x := VisitTree(ns[i]);
      r := r + [x];
      i := i + 1;
    }
  }

  // ---------------------------------------------------------------------
  // Properties
  // ---------------------------------------------------------------------

  lemma HasInstanceAccessIffSomeOccurrence(n: Node, scope: Scope)
    ensures HasInstanceAccess(n, scope) <==> AnyMeets(Occurrences(n, scope, ScopeOf), Triggers)
  {
    SomeNodeMeetsIffSomeOccurrence(n, scope, ScopeOf, Triggers);
  }

  /** Either the declaration is returned as it is, or with one `Static`
      appended; the latter exactly for a candidate whose body has no
      instance access. */
  lemma RewriteDecision(d: MethodDeclaration)
    ensures Rewritten(d) == d || Rewritten(d) == WithStatic(d)
    ensures Rewritten(d) == WithStatic(d) <==> IsCandidate(d) && !BodyHasInstanceAccess(d.body)
  {
    assert |WithStatic(d).modifiers| != |d.modifiers|;
  }

  lemma NonCandidateUnchanged(d: MethodDeclaration)
    requires HasModifier(d, Static) || d.isConstructor || !(HasModifier(d, Private) || HasModifier(d, Final))
    ensures Rewritten(d) == d
  {
  }

  lemma RewriteAppendsOneStatic(d: MethodDeclaration)
    requires Rewritten(d) != d
    ensures Rewritten(d).modifiers == d.modifiers + [Static]
    ensures multiset(Rewritten(d).modifiers)[Static] == 1
    ensures Rewritten(d).(modifiers := d.modifiers) == d
  {
    assert Static !in multiset(d.modifiers);
  }

  lemma RewriteIdempotent(d: MethodDeclaration)
    ensures Rewritten(Rewritten(d)) == Rewritten(d)
  {
    if Rewritten(d) != d {
      assert HasModifier(WithStatic(d), Static);
    }
  }

  /** A node anywhere in the body meeting a rule disqualifies the method. */
  lemma TriggerInBodyDisqualifies(d: MethodDeclaration, k: nat)
    requires d.body.Some?
    requires var occ := Occurrences(d.body.value, NoScope, ScopeOf);
      k < |occ| && Triggers(occ[k].0, occ[k].1)
    ensures Rewritten(d) == d
  {
    HasInstanceAccessIffSomeOccurrence(d.body.value, NoScope);
  }

  lemma NoTriggerInBodyRewrites(d: MethodDeclaration)
    requires IsCandidate(d) && d.body.Some?
    requires var occ := Occurrences(d.body.value, NoScope, ScopeOf);
      forall k :: 0 <= k < |occ| ==> !Triggers(occ[k].0, occ[k].1)
    ensures Rewritten(d) == WithStatic(d)
  {
    HasInstanceAccessIffSomeOccurrence(d.body.value, NoScope);
  }

  /** Only the body is walked: the parameters, and the name, play no part in
      the decision, so a parameter never disqualifies a method. */
  lemma ParametersNotInspected(d: MethodDeclaration, name: Node, parameters: seq<Node>)
    ensures Rewritten(d.(name := name, parameters := parameters)) == Rewritten(d).(name := name, parameters := parameters)
  {
    var e := d.(name := name, parameters := parameters);
    assert e.modifiers == d.modifiers && e.body == d.body;
    assert WithStatic(e) == WithStatic(d).(name := name, parameters := parameters);
  }

  lemma RewrittenIsModifierOnlyAndIdempotent()
    ensures ChangesModifiersOnly(Rewritten) && Idempotent(Rewritten)
  {
    forall d | true
      ensures Rewritten(d) == d.(modifiers := Rewritten(d).modifiers)
      ensures Rewritten(Rewritten(d)) == Rewritten(d)
    {
      RewriteIdempotent(d);
    }
  }

  lemma RecipeKeepsSkeleton(n: Node)
    ensures Skeleton(RecipeResult(n)) == Skeleton(n)
  {
    RewrittenIsModifierOnlyAndIdempotent();
    MapDeclsKeepsSkeleton(n, Rewritten);
  }

  lemma RecipeIdempotent(n: Node)
    ensures RecipeResult(RecipeResult(n)) == RecipeResult(n)
  {
    RewrittenIsModifierOnlyAndIdempotent();
    MapDeclsIdempotent(n, Rewritten);
  }

  lemma RulesIgnoreModifiers()
    ensures forall x, s :: Triggers(Skeleton(x), s) == Triggers(x, s)
    ensures forall x, l, s :: ScopeOf(Skeleton(x), l, s) == ScopeOf(x, l, s)
  {
    forall x: Node, s: Scope | x.FieldAccess?
      ensures Triggers(Skeleton(x), s) == Triggers(x, s)
    {
      // A field access target keeps its kind and its field type.
      assert Skeleton(x).target == Skeleton(x.target);
      if x.target.Ident? {
        assert Skeleton(x.target) == x.target;
      }
    }
  }

  lemma VerdictIgnoresNestedRewrites(n: Node, scope: Scope)
    ensures HasInstanceAccess(RecipeResult(n), scope) == HasInstanceAccess(n, scope)
  {
    RewrittenIsModifierOnlyAndIdempotent();
    RulesIgnoreModifiers();
    SomeNodeMeetsAfterMapDecls(n, scope, ScopeOf, Triggers, Rewritten);
  }

  lemma RecipeDecidesOnOriginalBody(d: MethodDeclaration)
    ensures var d1 := MapDeclChildren(d, Rewritten);
      RecipeResult(MethodDecl(d)) ==
        if IsCandidate(d) && !BodyHasInstanceAccess(d.body) then MethodDecl(WithStatic(d1)) else MethodDecl(d1)
  {
    if d.body.Some? {
      VerdictIgnoresNestedRewrites(d.body.value, NoScope);
    }
  }
}
