/**
 * The slice of OpenRewrite's Java lossless semantic tree that the two recipes
 * read, together with the type attribution facts they consult.
 *
 * OpenRewrite answers "which symbol is this and is it static" through
 * JavaType objects; here those answers are plain fields on the nodes.
 * OpenRewrite's Cursor lets a visitor look at the parent of the node it is
 * visiting; here every child is listed together with the way it hangs under
 * its parent (a `Link`), and each recipe computes the context a child is
 * visited in from its parent node and that link.
 */
module JavaTree {

  datatype Option<+T> = None | Some(value: T)

  /** J.Modifier.Type: the keyword of one modifier of a declaration. */
  datatype ModifierType =
    | Default | Public | Protected | Private | Abstract | Static | Final
    | Sealed | NonSealed | Transient | Volatile | Synchronized | Native
    | Strictfp | LanguageExtension

  /** JavaType.Variable as the recipes see it: is its owner a class (a field,
      as opposed to a parameter or local owned by a method), and is it static. */
  datatype VariableType = VariableType(ownerIsClass: bool, isStatic: bool)

  /** JavaType.Method: name, parameter types (fully qualified), the fully
      qualified names of the direct interfaces of its declaring type, and
      whether it carries the static flag. */
  datatype MethodType = MethodType(
    name: string,
    parameterTypes: seq<string>,
    declaringInterfaces: seq<string>,
    isStatic: bool)

  /** JavaType.Class of a created type: does it have an owning class (it is
      nested), and is it static. */
  datatype ClassType = ClassType(hasOwningClass: bool, isStatic: bool)

  /** The tree. `Other` stands for every node kind the recipes do not inspect
      (return, binary, literal, lambda, if, ...): only its children matter. */
  datatype Node =
    | Ident(simpleName: string, fieldType: Option<VariableType>)
    | FieldAccess(target: Node, name: Node)
    | MethodInvocation(select: Option<Node>, name: Node, arguments: seq<Node>, methodType: Option<MethodType>)
    | NewClass(enclosing: Option<Node>, clazz: Option<Node>, arguments: seq<Node>, classBody: Option<Node>, classType: Option<ClassType>)
    | VarDecls(typeExpression: Option<Node>, variables: seq<Node>)
    | NamedVariable(name: Node, initializer: Option<Node>)
    | ClassDecl(name: Node, members: Node)
    | MethodDecl(decl: MethodDeclaration)
    | Block(statements: seq<Node>)
    | Other(children: seq<Node>)

  /** J.MethodDeclaration. `body` is None for a method without a body
      (abstract or native); `methodType` is None when attribution is missing. */
  datatype MethodDeclaration = MethodDeclaration(
    modifiers: seq<ModifierType>,
    isConstructor: bool,
    name: Node,
    parameters: seq<Node>,
    body: Option<Node>,
    methodType: Option<MethodType>)

  /** How a child hangs under its parent node in OpenRewrite's cursor path:
      directly, or wrapped in a JLeftPadded or a JRightPadded (the latter
      also for the elements of a JContainer). */
  datatype Link = Direct | LeftPadded | RightPadded

  predicate HasModifier(d: MethodDeclaration, t: ModifierType) {
    t in d.modifiers
  }

  function Size(n: Node): nat
    decreases n
  {
    match n
    case Ident(_, _) => 1
    case FieldAccess(t, nm) => 1 + Size(t) + Size(nm)
    case MethodInvocation(s, nm, args, _) => 1 + SizeOpt(s) + Size(nm) + SizeAll(args)
    case NewClass(e, c, args, b, _) => 1 + SizeOpt(e) + SizeOpt(c) + SizeAll(args) + SizeOpt(b)
    case VarDecls(t, vs) => 1 + SizeOpt(t) + SizeAll(vs)
    case NamedVariable(nm, init) => 1 + Size(nm) + SizeOpt(init)
    case ClassDecl(nm, ms) => 1 + Size(nm) + Size(ms)
    case MethodDecl(d) => 1 + Size(d.name) + SizeAll(d.parameters) + SizeOpt(d.body)
    case Block(ss) => 1 + SizeAll(ss)
    case Other(cs) => 1 + SizeAll(cs)
  }

  function SizeOpt(o: Option<Node>): nat
    decreases o
  {
    match o
    case None => 0
    case Some(x) => Size(x)
  }

  function SizeAll(ns: seq<Node>): (r: nat)
    decreases ns
    ensures forall i :: 0 <= i < |ns| ==> Size(ns[i]) <= r
  {
    if ns == [] then 0 else Size(ns[0]) + SizeAll(ns[1..])
  }

  function OptChild(o: Option<Node>, l: Link): (r: seq<(Node, Link)>)
    ensures o.Some? ==> r == [(o.value, l)]
    ensures o.None? ==> r == []
    ensures forall i :: 0 <= i < |r| ==> Size(r[i].0) == SizeOpt(o)
  {
    if o.Some? then [(o.value, l)] else []
  }

  function AllChildren(ns: seq<Node>, l: Link): (r: seq<(Node, Link)>)
    ensures |r| == |ns|
    ensures forall i :: 0 <= i < |r| ==> r[i] == (ns[i], l)
  {
    seq(|ns|, i requires 0 <= i < |ns| => (ns[i], l))
  }

  /** The children a JavaVisitor visits under `n`, in its order, each with
      the way it hangs under `n`. Every child is strictly smaller. */
  function Children(n: Node): (r: seq<(Node, Link)>)
    ensures forall i :: 0 <= i < |r| ==> Size(r[i].0) < Size(n)
  {
    match n
    case Ident(_, _) => []
    case FieldAccess(t, nm) => [(t, Direct), (nm, LeftPadded)]
    case MethodInvocation(s, nm, args, _) =>
      OptChild(s, RightPadded) + [(nm, Direct)] + AllChildren(args, RightPadded)
    case NewClass(e, c, args, b, _) =>
      OptChild(e, RightPadded) + OptChild(c, Direct) + AllChildren(args, RightPadded) + OptChild(b, Direct)
    case VarDecls(t, vs) => OptChild(t, Direct) + AllChildren(vs, RightPadded)
    case NamedVariable(nm, init) => [(nm, Direct)] + OptChild(init, LeftPadded)
    case ClassDecl(nm, ms) => [(nm, Direct), (ms, Direct)]
    case MethodDecl(d) => [(d.name, Direct)] + AllChildren(d.parameters, RightPadded) + OptChild(d.body, Direct)
    case Block(ss) => AllChildren(ss, RightPadded)
    case Other(cs) => AllChildren(cs, Direct)
  }

  /** Some node of the tree rooted at `n` satisfies `meets` in the context it
      is visited in; `n` is visited in context `c`, and the child of a node
      `p` hanging by link `l` in context `inner(p, l, c')` when `p` is visited
      in `c'`. This is the verdict of a walk whose flag is only ever set. */
  predicate SomeNodeMeets<C>(n: Node, c: C, inner: (Node, Link, C) -> C, meets: (Node, C) -> bool)
    decreases Size(n), 2
  {
    meets(n, c) || SomeEarlierChildMeets(n, c, inner, meets, |Children(n)|)
  }

  /** Some child of `n` before index `k` has a node meeting the rule: what a
      walk over the children knows after visiting the first `k`. */
  predicate SomeEarlierChildMeets<C>(n: Node, c: C, inner: (Node, Link, C) -> C, meets: (Node, C) -> bool, k: nat)
    requires k <= |Children(n)|
    decreases Size(n), 1, k
  {
    k > 0 && (SomeEarlierChildMeets(n, c, inner, meets, k - 1) || SomeChildMeets(n, c, inner, meets, k - 1))
  }

  predicate SomeChildMeets<C>(n: Node, c: C, inner: (Node, Link, C) -> C, meets: (Node, C) -> bool, i: nat)
    requires i < |Children(n)|
    decreases Size(n), 0
  {
    var (child, link) := Children(n)[i];
    SomeNodeMeets(child, inner(n, link, c), inner, meets)
  }

  lemma SomeEarlierChildMeetsStep<C>(n: Node, c: C, inner: (Node, Link, C) -> C, meets: (Node, C) -> bool, k: nat)
    requires k < |Children(n)|
    ensures SomeEarlierChildMeets(n, c, inner, meets, k + 1) ==
      (SomeEarlierChildMeets(n, c, inner, meets, k) || SomeChildMeets(n, c, inner, meets, k))
  {
  }

  /** Unfolding the verdict of a node with no, one or two children, for
      reasoning about concrete trees. */
  lemma SomeNodeMeetsLeaf<C>(n: Node, c: C, inner: (Node, Link, C) -> C, meets: (Node, C) -> bool)
    requires Children(n) == []
    ensures SomeNodeMeets(n, c, inner, meets) == meets(n, c)
  {
  }

  lemma SomeNodeMeetsOneChild<C>(n: Node, c: C, inner: (Node, Link, C) -> C, meets: (Node, C) -> bool, x: Node, l: Link)
    requires Children(n) == [(x, l)]
    ensures SomeNodeMeets(n, c, inner, meets) == (meets(n, c) || SomeNodeMeets(x, inner(n, l, c), inner, meets))
  {
    assert SomeEarlierChildMeets(n, c, inner, meets, 1) == SomeChildMeets(n, c, inner, meets, 0);
  }

  lemma SomeNodeMeetsTwoChildren<C>(n: Node, c: C, inner: (Node, Link, C) -> C, meets: (Node, C) -> bool,
                                    x: Node, l: Link, y: Node, m: Link)
    requires Children(n) == [(x, l), (y, m)]
    ensures SomeNodeMeets(n, c, inner, meets) ==
      (meets(n, c) || SomeNodeMeets(x, inner(n, l, c), inner, meets) || SomeNodeMeets(y, inner(n, m, c), inner, meets))
  {
    assert SomeEarlierChildMeets(n, c, inner, meets, 1) == SomeChildMeets(n, c, inner, meets, 0);
    assert SomeEarlierChildMeets(n, c, inner, meets, 2) ==
      (SomeChildMeets(n, c, inner, meets, 0) || SomeChildMeets(n, c, inner, meets, 1));
  }

  /** Independent reference: the pre-order list of every node of the tree
      together with the context it is visited in. */
  function Occurrences<C>(n: Node, c: C, inner: (Node, Link, C) -> C): (r: seq<(Node, C)>)
    decreases Size(n), 1
    ensures |r| > 0 && r[0] == (n, c)
  {
    [(n, c)] + ChildOccurrences(n, c, inner, |Children(n)|)
  }

  /** The occurrences under the first `k` children of `n`. */
  function ChildOccurrences<C>(n: Node, c: C, inner: (Node, Link, C) -> C, k: nat): seq<(Node, C)>
    requires k <= |Children(n)|
    decreases Size(n), 0, k
  {
    if k == 0 then []
    else
      var (child, link) := Children(n)[k - 1];
      ChildOccurrences(n, c, inner, k - 1) + Occurrences(child, inner(n, link, c), inner)
  }

  /** Some entry of a list of occurrences meets the rule. */
  predicate AnyMeets<C>(occ: seq<(Node, C)>, meets: (Node, C) -> bool) {
    exists k :: 0 <= k < |occ| && meets(occ[k].0, occ[k].1)
  }

  lemma AnyMeetsConcat<C>(a: seq<(Node, C)>, b: seq<(Node, C)>, meets: (Node, C) -> bool)
    ensures AnyMeets(a + b, meets) <==> AnyMeets(a, meets) || AnyMeets(b, meets)
  {
    var ab := a + b;
    if AnyMeets(a, meets) {
      var k :| 0 <= k < |a| && meets(a[k].0, a[k].1);
      assert ab[k] == a[k];
    }
    if AnyMeets(b, meets) {
      var k :| 0 <= k < |b| && meets(b[k].0, b[k].1);
      assert ab[|a| + k] == b[k];
    }
    if AnyMeets(ab, meets) {
      var k :| 0 <= k < |ab| && meets(ab[k].0, ab[k].1);
      if k < |a| {
        assert a[k] == ab[k];
      } else {
        assert b[k - |a|] == ab[k];
      }
    }
  }

  /** The recursive verdict agrees with the flat one: some node meets the rule
      iff some entry of the occurrence list does. */
  lemma {:induction false} SomeNodeMeetsIffSomeOccurrence<C>(n: Node, c: C, inner: (Node, Link, C) -> C, meets: (Node, C) -> bool)
    ensures SomeNodeMeets(n, c, inner, meets) <==> AnyMeets(Occurrences(n, c, inner), meets)
    decreases Size(n), 1
  {
    AnyMeetsConcat([(n, c)], ChildOccurrences(n, c, inner, |Children(n)|), meets);
    SomeChildMeetsIffChildOccurrence(n, c, inner, meets, |Children(n)|);
  }

  lemma {:induction false} SomeChildMeetsIffChildOccurrence<C>(n: Node, c: C, inner: (Node, Link, C) -> C, meets: (Node, C) -> bool, k: nat)
    requires k <= |Children(n)|
    ensures SomeEarlierChildMeets(n, c, inner, meets, k) <==> AnyMeets(ChildOccurrences(n, c, inner, k), meets)
    decreases Size(n), 0, k
  {
    if k > 0 {
      var (child, link) := Children(n)[k - 1];
      SomeNodeMeetsIffSomeOccurrence(child, inner(n, link, c), inner, meets);
      SomeChildMeetsIffChildOccurrence(n, c, inner, meets, k - 1);
      AnyMeetsConcat(ChildOccurrences(n, c, inner, k - 1), Occurrences(child, inner(n, link, c), inner), meets);
      SomeEarlierChildMeetsStep(n, c, inner, meets, k - 1);
    }
  }

  /** The tree after a visitor that rewrites method declarations bottom-up:
      each declaration's own children are rewritten first, then `f` is
      applied to it (the shape of `super.visitMethodDeclaration` followed by
      the recipe's own decision). Every other node is rebuilt from its
      rewritten children. */
  function MapDecls(n: Node, f: MethodDeclaration -> MethodDeclaration): Node
    decreases n
  {
    match n
    case Ident(_, _) => n
    case FieldAccess(t, nm) => FieldAccess(MapDecls(t, f), MapDecls(nm, f))
    case MethodInvocation(s, nm, args, mt) =>
      MethodInvocation(MapOpt(s, f), MapDecls(nm, f), MapAll(args, f), mt)
    case NewClass(e, c, args, b, ct) =>
      NewClass(MapOpt(e, f), MapOpt(c, f), MapAll(args, f), MapOpt(b, f), ct)
    case VarDecls(t, vs) => VarDecls(MapOpt(t, f), MapAll(vs, f))
    case NamedVariable(nm, init) => NamedVariable(MapDecls(nm, f), MapOpt(init, f))
    case ClassDecl(nm, ms) => ClassDecl(MapDecls(nm, f), MapDecls(ms, f))
    case MethodDecl(d) => MethodDecl(f(MapDeclChildren(d, f)))
    case Block(ss) => Block(MapAll(ss, f))
    case Other(cs) => Other(MapAll(cs, f))
  }

  /** The declaration with its name, parameters and body rewritten. */
  function MapDeclChildren(d: MethodDeclaration, f: MethodDeclaration -> MethodDeclaration): (r: MethodDeclaration)
    decreases d
  {
    d.(name := MapDecls(d.name, f), parameters := MapAll(d.parameters, f), body := MapOpt(d.body, f))
  }

  function MapOpt(o: Option<Node>, f: MethodDeclaration -> MethodDeclaration): (r: Option<Node>)
    decreases o
    ensures r.Some? <==> o.Some?
  {
    match o
    case None => None
    case Some(x) => Some(MapDecls(x, f))
  }

  function MapAll(ns: seq<Node>, f: MethodDeclaration -> MethodDeclaration): (r: seq<Node>)
    decreases ns
    ensures |r| == |ns|
    ensures forall i :: 0 <= i < |ns| ==> r[i] == MapDecls(ns[i], f)
  {
    seq(|ns|, i requires 0 <= i < |ns| => MapDecls(ns[i], f))
  }

  /** `f` may change the modifier list of a declaration and nothing else. */
  ghost predicate ChangesModifiersOnly(f: MethodDeclaration -> MethodDeclaration) {
    forall d :: f(d) == d.(modifiers := f(d).modifiers)
  }

  ghost predicate Idempotent(f: MethodDeclaration -> MethodDeclaration) {
    forall d :: f(f(d)) == f(d)
  }

  function ClearModifiers(d: MethodDeclaration): (r: MethodDeclaration)
    ensures r.modifiers == []
  {
    d.(modifiers := [])
  }

  /** The tree with every modifier list emptied: what is left is everything a
      modifier-only rewrite must keep. */
  function Skeleton(n: Node): Node {
    MapDecls(n, ClearModifiers)
  }

  /** A bottom-up rewrite that touches only modifier lists keeps the rest of
      the tree as it was. */
  lemma {:induction false} MapDeclsKeepsSkeleton(n: Node, f: MethodDeclaration -> MethodDeclaration)
    requires ChangesModifiersOnly(f)
    ensures Skeleton(MapDecls(n, f)) == Skeleton(n)
    decreases n
  {
    match n
    case Ident(_, _) =>
    case FieldAccess(t, nm) =>
      MapDeclsKeepsSkeleton(t, f);
      MapDeclsKeepsSkeleton(nm, f);
    case MethodInvocation(s, nm, args, _) =>
      MapOptKeepsSkeleton(s, f);
      MapDeclsKeepsSkeleton(nm, f);
      MapAllKeepsSkeleton(args, f);
    case NewClass(e, c, args, b, _) =>
      MapOptKeepsSkeleton(e, f);
      MapOptKeepsSkeleton(c, f);
      MapAllKeepsSkeleton(args, f);
      MapOptKeepsSkeleton(b, f);
    case VarDecls(t, vs) =>
      MapOptKeepsSkeleton(t, f);
      MapAllKeepsSkeleton(vs, f);
    case NamedVariable(nm, init) =>
      MapDeclsKeepsSkeleton(nm, f);
      MapOptKeepsSkeleton(init, f);
    case ClassDecl(nm, ms) =>
      MapDeclsKeepsSkeleton(nm, f);
      MapDeclsKeepsSkeleton(ms, f);
    case MethodDecl(d) =>
      MapDeclsKeepsSkeleton(d.name, f);
      MapAllKeepsSkeleton(d.parameters, f);
      MapOptKeepsSkeleton(d.body, f);
      DeclKeepsSkeleton(d, f);
    case Block(ss) =>
      MapAllKeepsSkeleton(ss, f);
    case Other(cs) =>
      MapAllKeepsSkeleton(cs, f);
  }

  lemma DeclKeepsSkeleton(d: MethodDeclaration, f: MethodDeclaration -> MethodDeclaration)
    requires ChangesModifiersOnly(f)
    requires MapDecls(MapDecls(d.name, f), ClearModifiers) == MapDecls(d.name, ClearModifiers)
    requires MapAll(MapAll(d.parameters, f), ClearModifiers) == MapAll(d.parameters, ClearModifiers)
    requires MapOpt(MapOpt(d.body, f), ClearModifiers) == MapOpt(d.body, ClearModifiers)
    ensures Skeleton(MapDecls(MethodDecl(d), f)) == Skeleton(MethodDecl(d))
  {
    var d1 := MapDeclChildren(d, f);
    assert f(d1) == d1.(modifiers := f(d1).modifiers);
    assert MapDeclChildren(f(d1), ClearModifiers) == MapDeclChildren(d, ClearModifiers).(modifiers := f(d1).modifiers);
  }

  lemma {:induction false} MapOptKeepsSkeleton(o: Option<Node>, f: MethodDeclaration -> MethodDeclaration)
    requires ChangesModifiersOnly(f)
    ensures MapOpt(MapOpt(o, f), ClearModifiers) == MapOpt(o, ClearModifiers)
    decreases o
  {
    if o.Some? {
      MapDeclsKeepsSkeleton(o.value, f);
    }
  }

  lemma {:induction false} MapAllKeepsSkeleton(ns: seq<Node>, f: MethodDeclaration -> MethodDeclaration)
    requires ChangesModifiersOnly(f)
    ensures MapAll(MapAll(ns, f), ClearModifiers) == MapAll(ns, ClearModifiers)
    decreases ns
  {
    forall i | 0 <= i < |ns|
      ensures MapDecls(MapDecls(ns[i], f), ClearModifiers) == MapDecls(ns[i], ClearModifiers)
    {
      MapDeclsKeepsSkeleton(ns[i], f);
    }
  }

  /** Running an idempotent, modifier-only declaration rewrite over the tree
      a second time changes nothing. */
  lemma {:induction false} MapDeclsIdempotent(n: Node, f: MethodDeclaration -> MethodDeclaration)
    requires ChangesModifiersOnly(f) && Idempotent(f)
    ensures MapDecls(MapDecls(n, f), f) == MapDecls(n, f)
    decreases n
  {
    match n
    case Ident(_, _) =>
    case FieldAccess(t, nm) =>
      MapDeclsIdempotent(t, f);
      MapDeclsIdempotent(nm, f);
    case MethodInvocation(s, nm, args, _) =>
      MapOptIdempotent(s, f);
      MapDeclsIdempotent(nm, f);
      MapAllIdempotent(args, f);
    case NewClass(e, c, args, b, _) =>
      MapOptIdempotent(e, f);
      MapOptIdempotent(c, f);
      MapAllIdempotent(args, f);
      MapOptIdempotent(b, f);
    case VarDecls(t, vs) =>
      MapOptIdempotent(t, f);
      MapAllIdempotent(vs, f);
    case NamedVariable(nm, init) =>
      MapDeclsIdempotent(nm, f);
      MapOptIdempotent(init, f);
    case ClassDecl(nm, ms) =>
      MapDeclsIdempotent(nm, f);
      MapDeclsIdempotent(ms, f);
    case MethodDecl(d) =>
      var d1 := MapDeclChildren(d, f);
      MapDeclsIdempotent(d.name, f);
      MapAllIdempotent(d.parameters, f);
      MapOptIdempotent(d.body, f);
      assert f(d1) == d1.(modifiers := f(d1).modifiers);
      assert MapDeclChildren(f(d1), f) == f(d1);
      assert f(f(d1)) == f(d1);
    case Block(ss) =>
      MapAllIdempotent(ss, f);
    case Other(cs) =>
      MapAllIdempotent(cs, f);
  }

  lemma {:induction false} MapOptIdempotent(o: Option<Node>, f: MethodDeclaration -> MethodDeclaration)
    requires ChangesModifiersOnly(f) && Idempotent(f)
    ensures MapOpt(MapOpt(o, f), f) == MapOpt(o, f)
    decreases o
  {
    if o.Some? {
      MapDeclsIdempotent(o.value, f);
    }
  }

  lemma {:induction false} MapAllIdempotent(ns: seq<Node>, f: MethodDeclaration -> MethodDeclaration)
    requires ChangesModifiersOnly(f) && Idempotent(f)
    ensures MapAll(MapAll(ns, f), f) == MapAll(ns, f)
    decreases ns
  {
    forall i | 0 <= i < |ns|
      ensures MapDecls(MapDecls(ns[i], f), f) == MapDecls(ns[i], f)
    {
      MapDeclsIdempotent(ns[i], f);
    }
  }

  /** `a` is `b` with every node rewritten by `f` and every link kept. */
  predicate MappedChildren(a: seq<(Node, Link)>, b: seq<(Node, Link)>, f: MethodDeclaration -> MethodDeclaration) {
    |a| == |b| && forall i :: 0 <= i < |b| ==> a[i] == (MapDecls(b[i].0, f), b[i].1)
  }

  lemma MappedChildrenConcat(a1: seq<(Node, Link)>, b1: seq<(Node, Link)>, a2: seq<(Node, Link)>, b2: seq<(Node, Link)>, f: MethodDeclaration -> MethodDeclaration)
    requires MappedChildren(a1, b1, f) && MappedChildren(a2, b2, f)
    ensures MappedChildren(a1 + a2, b1 + b2, f)
  {
    forall i | 0 <= i < |b1 + b2|
      ensures (a1 + a2)[i] == (MapDecls((b1 + b2)[i].0, f), (b1 + b2)[i].1)
    {
      if i >= |b1| {
        assert (a1 + a2)[i] == a2[i - |b1|];
      }
    }
  }

  lemma MappedOptChild(o: Option<Node>, l: Link, f: MethodDeclaration -> MethodDeclaration)
    ensures MappedChildren(OptChild(MapOpt(o, f), l), OptChild(o, l), f)
  {
  }

  lemma MappedAllChildren(ns: seq<Node>, l: Link, f: MethodDeclaration -> MethodDeclaration)
    ensures MappedChildren(AllChildren(MapAll(ns, f), l), AllChildren(ns, l), f)
  {
  }

  /** A modifier-only rewrite keeps every node's children, in order and with
      their links, each child rewritten. */
  lemma ChildrenOfMapDecls(n: Node, f: MethodDeclaration -> MethodDeclaration)
    requires ChangesModifiersOnly(f)
    ensures MappedChildren(Children(MapDecls(n, f)), Children(n), f)
  {
    match n
    case Ident(_, _) =>
    case FieldAccess(t, nm) =>
    case MethodInvocation(s, nm, args, _) =>
      MappedOptChild(s, RightPadded, f);
      MappedAllChildren(args, RightPadded, f);
      MappedChildrenConcat(OptChild(MapOpt(s, f), RightPadded), OptChild(s, RightPadded), [(MapDecls(nm, f), Direct)], [(nm, Direct)], f);
      MappedChildrenConcat(OptChild(MapOpt(s, f), RightPadded) + [(MapDecls(nm, f), Direct)], OptChild(s, RightPadded) + [(nm, Direct)],
        AllChildren(MapAll(args, f), RightPadded), AllChildren(args, RightPadded), f);
    case NewClass(e, c, args, b, _) =>
      MappedOptChild(e, RightPadded, f);
      MappedOptChild(c, Direct, f);
      MappedAllChildren(args, RightPadded, f);
      MappedOptChild(b, Direct, f);
      MappedChildrenConcat(OptChild(MapOpt(e, f), RightPadded), OptChild(e, RightPadded), OptChild(MapOpt(c, f), Direct), OptChild(c, Direct), f);
      MappedChildrenConcat(OptChild(MapOpt(e, f), RightPadded) + OptChild(MapOpt(c, f), Direct), OptChild(e, RightPadded) + OptChild(c, Direct),
        AllChildren(MapAll(args, f), RightPadded), AllChildren(args, RightPadded), f);
      MappedChildrenConcat(OptChild(MapOpt(e, f), RightPadded) + OptChild(MapOpt(c, f), Direct) + AllChildren(MapAll(args, f), RightPadded),
        OptChild(e, RightPadded) + OptChild(c, Direct) + AllChildren(args, RightPadded),
        OptChild(MapOpt(b, f), Direct), OptChild(b, Direct), f);
    case VarDecls(t, vs) =>
      MappedOptChild(t, Direct, f);
      MappedAllChildren(vs, RightPadded, f);
      MappedChildrenConcat(OptChild(MapOpt(t, f), Direct), OptChild(t, Direct), AllChildren(MapAll(vs, f), RightPadded), AllChildren(vs, RightPadded), f);
    case NamedVariable(nm, init) =>
      MappedOptChild(init, LeftPadded, f);
      MappedChildrenConcat([(MapDecls(nm, f), Direct)], [(nm, Direct)], OptChild(MapOpt(init, f), LeftPadded), OptChild(init, LeftPadded), f);
    case ClassDecl(nm, ms) =>
    case MethodDecl(d) =>
      var d1 := MapDeclChildren(d, f);
      assert f(d1) == d1.(modifiers := f(d1).modifiers);
      MappedAllChildren(d.parameters, RightPadded, f);
      MappedOptChild(d.body, Direct, f);
      MappedChildrenConcat([(MapDecls(d.name, f), Direct)], [(d.name, Direct)], AllChildren(MapAll(d.parameters, f), RightPadded), AllChildren(d.parameters, RightPadded), f);
      MappedChildrenConcat([(MapDecls(d.name, f), Direct)] + AllChildren(MapAll(d.parameters, f), RightPadded), [(d.name, Direct)] + AllChildren(d.parameters, RightPadded),
        OptChild(MapOpt(d.body, f), Direct), OptChild(d.body, Direct), f);
    case Block(ss) =>
      MappedAllChildren(ss, RightPadded, f);
    case Other(cs) =>
      MappedAllChildren(cs, Direct, f);
  }

  /** A verdict whose rule and contexts cannot see modifier lists is the same
      on a tree and on its skeleton. */
  lemma {:induction false} SomeNodeMeetsOnSkeleton<C>(n: Node, c: C, inner: (Node, Link, C) -> C, meets: (Node, C) -> bool)
    requires forall x, c' :: meets(Skeleton(x), c') == meets(x, c')
    requires forall x, l, c' :: inner(Skeleton(x), l, c') == inner(x, l, c')
    ensures SomeNodeMeets(Skeleton(n), c, inner, meets) == SomeNodeMeets(n, c, inner, meets)
    decreases Size(n), 1
  {
    ChildrenOfMapDecls(n, ClearModifiers);
    SomeEarlierChildMeetsOnSkeleton(n, c, inner, meets, |Children(n)|);
  }

  lemma {:induction false} SomeEarlierChildMeetsOnSkeleton<C>(n: Node, c: C, inner: (Node, Link, C) -> C, meets: (Node, C) -> bool, k: nat)
    requires forall x, c' :: meets(Skeleton(x), c') == meets(x, c')
    requires forall x, l, c' :: inner(Skeleton(x), l, c') == inner(x, l, c')
    requires k <= |Children(n)|
    requires MappedChildren(Children(Skeleton(n)), Children(n), ClearModifiers)
    ensures SomeEarlierChildMeets(Skeleton(n), c, inner, meets, k) == SomeEarlierChildMeets(n, c, inner, meets, k)
    decreases Size(n), 0, k
  {
    if k > 0 {
      var sk := Skeleton(n);
      var (child, link) := Children(n)[k - 1];
      assert Children(sk)[k - 1] == (Skeleton(child), link);
      SomeNodeMeetsOnSkeleton(child, inner(n, link, c), inner, meets);
      SomeEarlierChildMeetsOnSkeleton(n, c, inner, meets, k - 1);
      assert SomeChildMeets(sk, c, inner, meets, k - 1) == SomeChildMeets(n, c, inner, meets, k - 1);
    }
  }

  /** So a modifier-only rewrite of nested declarations cannot change such a
      verdict. */
  lemma SomeNodeMeetsAfterMapDecls<C>(n: Node, c: C, inner: (Node, Link, C) -> C, meets: (Node, C) -> bool, f: MethodDeclaration -> MethodDeclaration)
    requires ChangesModifiersOnly(f)
    requires forall x, c' :: meets(Skeleton(x), c') == meets(x, c')
    requires forall x, l, c' :: inner(Skeleton(x), l, c') == inner(x, l, c')
    ensures SomeNodeMeets(MapDecls(n, f), c, inner, meets) == SomeNodeMeets(n, c, inner, meets)
  {
    MapDeclsKeepsSkeleton(n, f);
    SomeNodeMeetsOnSkeleton(n, c, inner, meets);
    SomeNodeMeetsOnSkeleton(MapDecls(n, f), c, inner, meets);
  }

  /** java.util.concurrent.atomic.AtomicBoolean, used without concurrency:
      a mutable boolean cell shared by a recursive walk. */
  class AtomicBool {
    var value: bool

    constructor ()
      ensures !value
    {
      value := false;
    }

    method Set(v: bool)
      modifies this
      ensures value == v
    {
      value := v;
    }
  }
}
