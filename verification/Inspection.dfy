/** The bounded worklist that refuses asynchronous programs before compilation. */
module Inspection {
  import opened Text

  const MAX_INSPECTION_DEPTH: nat := 512
  const MAX_INSPECTION_NODES: nat := 262144

  /** The source tree, one constructor per kind of node that the inspection tells
      apart. Kinds that it treats alike share a constructor. */
  datatype Node =
    // items
    | ItemFunction(decl: Node)
    | ItemStruct(fields: seq<Node>)
    | ItemEnum(variants: seq<Node>)
    | ItemPlain // import, module
    | Function(isAsync: bool, params: seq<Node>, returnType: Option<Node>, body: seq<Node>)
    | Param(ty: Option<Node>) // of a declaration or of a function expression
    | Variant(fields: seq<Node>)
    // statements
    | VarDecl(ty: Option<Node>, value: Node)
    | ValueStmt(value: Node) // assignment to a name, fail, panic, print, expression
    | TargetStmt(target: Node, value: Node) // plain or compound
    | Destructure(values: seq<Node>)
    | ObjectDestructure(value: Node, bindings: seq<Node>)
    | If(condition: Node, thenBranch: seq<Node>, elseBranch: seq<Node>)
    | Loop(condition: Node, body: seq<Node>) // while, for
    | StmtFunction(decl: Node)
    | Try(body: seq<Node>, catchBody: seq<Node>, finallyBody: seq<Node>)
    | Return(result: Option<Node>)
    | Jump // break, continue
    // assignment targets and defaults
    | TargetVariable
    | TargetIndex(base: Node, index: Node)
    | TargetField(base: Node)
    | Default(result: Option<Node>)
    // expressions
    | Await(operand: Node)
    | Unary(operand: Node) // operator, try-unwrap, field, optional field
    | Binary(left: Node, right: Node) // operator, index
    | Call(callee: Node, args: seq<Node>)
    | Values(values: seq<Node>) // array, struct literal, object literal
    | Match(value: Node, arms: seq<Node>)
    | Closure(params: seq<Node>, returnType: Option<Node>, body: seq<Node>)
    | Atom // literal, variable
    | Arm(pattern: Node, guard: Option<Node>, value: Node)
    // patterns
    | PatternVariant(fields: seq<Node>)
    | PatternAtom // wildcard, binding, literal
    // types
    | TypeFunction(isAsync: bool, params: seq<Node>, output: Node)
    | TypeWrap(inner: Node) // array, result
    | Union(members: seq<Node>)
    | TypeAtom

  /** What the target cannot compile: an async function, an await, an async function type. */
  predicate IsAsync(n: Node)
  {
    n.Await? || ((n.Function? || n.TypeFunction?) && n.isAsync)
  }

  function Optional(o: Option<Node>): seq<Node>
  {
    match o case None => [] case Some(n) => [n]
  }

  /** The nodes that handling `n` puts on the worklist, in that order. An await is
      refused instead, and so is an async function. */
  function Children(n: Node): seq<Node>
  {
    match n
    case ItemFunction(f) => [f]
    case ItemStruct(fields) => fields
    case ItemEnum(variants) => variants
    case Function(_, params, ret, body) => params + Optional(ret) + body
    case Param(ty) => Optional(ty)
    case Variant(fields) => fields
    case VarDecl(ty, value) => Optional(ty) + [value]
    case ValueStmt(value) => [value]
    case TargetStmt(target, value) => [target, value]
    case Destructure(values) => values
    case ObjectDestructure(value, bindings) => [value] + bindings
    case If(condition, yes, no) => [condition] + yes + no
    case Loop(condition, body) => [condition] + body
    case StmtFunction(f) => [f]
    case Try(body, handler, last) => body + handler + last
    case Return(value) => Optional(value)
    case TargetIndex(base, index) => [base, index]
    case TargetField(base) => [base]
    case Default(value) => Optional(value)
    case Await(e) => [e]
    case Unary(e) => [e]
    case Binary(l, r) => [l, r]
    case Call(callee, args) => [callee] + args
    case Values(values) => values
    case Match(value, arms) => [value] + arms
    case Closure(params, ret, body) => params + Optional(ret) + body
    case Arm(pattern, guard, value) => [pattern] + Optional(guard) + [value]
    case PatternVariant(fields) => fields
    case TypeFunction(_, params, ret) => params + [ret]
    case TypeWrap(inner) => [inner]
    case Union(members) => members
    case ItemPlain | Jump | TargetVariable | Atom | PatternAtom | TypeAtom => []
  }

  // ---------- reference: all nodes of a tree, read off its fields ----------

  /** Every node of a tree, itself first. */
  function Subterms(n: Node): seq<Node>
  {
    [n] + match n
    case ItemFunction(f) => Subterms(f)
    case ItemStruct(fields) => SubtermsAll(fields)
    case ItemEnum(variants) => SubtermsAll(variants)
    case Function(_, params, ret, body) => SubtermsAll(params) + SubtermsOpt(ret) + SubtermsAll(body)
    case Param(ty) => SubtermsOpt(ty)
    case Variant(fields) => SubtermsAll(fields)
    case VarDecl(ty, value) => SubtermsOpt(ty) + Subterms(value)
    case ValueStmt(value) => Subterms(value)
    case TargetStmt(target, value) => Subterms(target) + Subterms(value)
    case Destructure(values) => SubtermsAll(values)
    case ObjectDestructure(value, bindings) => Subterms(value) + SubtermsAll(bindings)
    case If(condition, yes, no) => Subterms(condition) + SubtermsAll(yes) + SubtermsAll(no)
    case Loop(condition, body) => Subterms(condition) + SubtermsAll(body)
    case StmtFunction(f) => Subterms(f)
    case Try(body, handler, last) => SubtermsAll(body) + SubtermsAll(handler) + SubtermsAll(last)
    case Return(value) => SubtermsOpt(value)
    case TargetIndex(base, index) => Subterms(base) + Subterms(index)
    case TargetField(base) => Subterms(base)
    case Default(value) => SubtermsOpt(value)
    case Await(e) => Subterms(e)
    case Unary(e) => Subterms(e)
    case Binary(l, r) => Subterms(l) + Subterms(r)
    case Call(callee, args) => Subterms(callee) + SubtermsAll(args)
    case Values(values) => SubtermsAll(values)
    case Match(value, arms) => Subterms(value) + SubtermsAll(arms)
    case Closure(params, ret, body) => SubtermsAll(params) + SubtermsOpt(ret) + SubtermsAll(body)
    case Arm(pattern, guard, value) => Subterms(pattern) + SubtermsOpt(guard) + Subterms(value)
    case PatternVariant(fields) => SubtermsAll(fields)
    case TypeFunction(_, params, ret) => SubtermsAll(params) + Subterms(ret)
    case TypeWrap(inner) => Subterms(inner)
    case Union(members) => SubtermsAll(members)
    case ItemPlain | Jump | TargetVariable | Atom | PatternAtom | TypeAtom => []
  }

  function SubtermsAll(ns: seq<Node>): seq<Node>
  {
    if ns == [] then [] else Subterms(ns[0]) + SubtermsAll(ns[1..])
  }

  function SubtermsOpt(o: Option<Node>): seq<Node>
  {
    match o case None => [] case Some(n) => Subterms(n)
  }

  /** The nesting depth of a tree; a node without children has depth zero. */
  function Height(n: Node): nat
  {
    ChildrenAreSmaller(n);
    HeightAll(n, Children(n))
  }

  /** One more than the highest of `ns`, which are children of `parent`; zero if none. */
  function HeightAll(parent: Node, ns: seq<Node>): nat
    requires forall k :: 0 <= k < |ns| ==> ns[k] < parent
    decreases parent, 0, |ns|
  {
    if ns == [] then 0
    else
      var first := 1 + Height(ns[0]);
      var rest := HeightAll(parent, ns[1..]);
      if first > rest then first else rest
  }

  lemma ChildrenAreSmaller(n: Node)
    ensures forall k :: 0 <= k < |Children(n)| ==> Children(n)[k] < n
  {
    hide Children, SimpleStatement, SimpleTerm;
    if SimpleStatement(n) || SimpleTerm(n) {
      SimpleChildrenAreSmaller(n);
    } else {
      OtherChildrenAreSmaller(n);
    }
  }

  lemma SimpleChildrenAreSmaller(n: Node)
    requires SimpleStatement(n) || SimpleTerm(n)
    ensures forall k :: 0 <= k < |Children(n)| ==> Children(n)[k] < n
  {
  }

  lemma OtherChildrenAreSmaller(n: Node)
    requires !SimpleStatement(n) && !SimpleTerm(n)
    ensures forall k :: 0 <= k < |Children(n)| ==> Children(n)[k] < n
  {
  }

  lemma SubtermsCons(n: Node, rest: seq<Node>)
    ensures SubtermsAll([n] + rest) == Subterms(n) + SubtermsAll(rest)
  {
    hide Subterms;
    assert ([n] + rest)[1..] == rest;
  }

  lemma {:induction false} SubtermsConcat(a: seq<Node>, b: seq<Node>)
    ensures SubtermsAll(a + b) == SubtermsAll(a) + SubtermsAll(b)
  {
    hide Subterms, SubtermsAll;
    if a == [] {
      NoSubterms();
      assert a + b == b;
    } else {
      SubtermsConcat(a[1..], b);
      assert a + b == [a[0]] + (a[1..] + b) && a == [a[0]] + a[1..];
      SubtermsCons(a[0], a[1..] + b);
      SubtermsCons(a[0], a[1..]);
    }
  }

  lemma SubtermsOne(n: Node)
    ensures SubtermsAll([n]) == Subterms(n)
  {
    hide Subterms;
    assert [n][1..] == [];
  }

  lemma SubtermsOptional(o: Option<Node>)
    ensures SubtermsAll(Optional(o)) == SubtermsOpt(o)
  {
    if o.Some? {
      SubtermsOne(o.value);
    }
  }

  lemma SubtermsThree(a: seq<Node>, b: seq<Node>, c: seq<Node>)
    ensures SubtermsAll(a + b + c) == SubtermsAll(a) + SubtermsAll(b) + SubtermsAll(c)
  {
    SubtermsConcat(a + b, c);
    SubtermsConcat(a, b);
  }

  lemma SubtermsTwo(a: Node, b: Node)
    ensures SubtermsAll([a, b]) == Subterms(a) + Subterms(b)
  {
    hide Subterms;
    assert [a, b] == [a] + [b];
    SubtermsConcat([a], [b]);
    SubtermsOne(a);
    SubtermsOne(b);
  }

  /** Declarations and statements with one part, a list or an optional part. */
  predicate SimpleStatement(n: Node)
  {
    || n.ItemFunction? || n.ItemStruct? || n.ItemEnum? || n.ItemPlain? || n.Param? || n.Variant? || n.ValueStmt?
    || n.Destructure? || n.StmtFunction? || n.Return? || n.Jump?
  }

  /** Expressions and targets with one part, a list or an optional part. */
  predicate SimpleTerm(n: Node)
  {
    n.TargetVariable? || n.TargetField? || n.Default? || n.Await? || n.Unary? || n.Values? || n.Atom?
  }

  /** Patterns and types with one part or a list. */
  predicate SimpleShape(n: Node)
  {
    n.PatternVariant? || n.PatternAtom? || n.TypeWrap? || n.Union? || n.TypeAtom?
  }

  /** Kinds with two parts. */
  predicate DoubleStatement(n: Node)
  {
    n.VarDecl? || n.TargetStmt? || n.ObjectDestructure? || n.Loop? || n.TargetIndex?
  }

  predicate DoubleTerm(n: Node)
  {
    n.Binary? || n.Call? || n.Match? || n.TypeFunction?
  }

  lemma SimpleStatementIsComplete(n: Node)
    requires SimpleStatement(n)
    ensures Subterms(n) == [n] + SubtermsAll(Children(n))
  {
    hide SubtermsAll, SubtermsOpt, Optional;
    NoSubterms();
    match n
    case ItemFunction(f) => SubtermsOne(f);
    case Param(ty) => SubtermsOptional(ty);
    case ValueStmt(value) => SubtermsOne(value);
    case StmtFunction(f) => SubtermsOne(f);
    case Return(value) => SubtermsOptional(value);
    case _ =>
  }

  lemma SimpleTermIsComplete(n: Node)
    requires SimpleTerm(n)
    ensures Subterms(n) == [n] + SubtermsAll(Children(n))
  {
    hide SubtermsAll, SubtermsOpt, Optional;
    NoSubterms();
    match n
    case TargetField(base) => SubtermsOne(base);
    case Default(value) => SubtermsOptional(value);
    case Await(e) => SubtermsOne(e);
    case Unary(e) => SubtermsOne(e);
    case _ =>
  }

  lemma SimpleShapeIsComplete(n: Node)
    requires SimpleShape(n)
    ensures Subterms(n) == [n] + SubtermsAll(Children(n))
  {
    hide SubtermsAll, SubtermsOpt, Optional;
    NoSubterms();
    if n.TypeWrap? {
      SubtermsOne(n.inner);
    }
  }

  lemma DoubleStatementIsComplete(n: Node)
    requires DoubleStatement(n)
    ensures Subterms(n) == [n] + SubtermsAll(Children(n))
  {
    hide SubtermsAll, SubtermsOpt, Optional;
    match n
    case VarDecl(ty, value) =>
      SubtermsConcat(Optional(ty), [value]);
      SubtermsOptional(ty);
      SubtermsOne(value);
    case TargetStmt(target, value) => SubtermsTwo(target, value);
    case ObjectDestructure(value, bindings) =>
      SubtermsConcat([value], bindings);
      SubtermsOne(value);
    case Loop(condition, body) =>
      SubtermsConcat([condition], body);
      SubtermsOne(condition);
    case TargetIndex(base, index) => SubtermsTwo(base, index);
  }

  lemma DoubleTermIsComplete(n: Node)
    requires DoubleTerm(n)
    ensures Subterms(n) == [n] + SubtermsAll(Children(n))
  {
    hide SubtermsAll, SubtermsOpt, Optional;
    match n
    case Binary(l, r) => SubtermsTwo(l, r);
    case Call(callee, args) =>
      SubtermsConcat([callee], args);
      SubtermsOne(callee);
    case Match(value, arms) =>
      SubtermsConcat([value], arms);
      SubtermsOne(value);
    case TypeFunction(_, params, ret) =>
      SubtermsConcat(params, [ret]);
      SubtermsOne(ret);
  }

  lemma TripleIsComplete(n: Node)
    requires !SimpleStatement(n) && !SimpleTerm(n) && !SimpleShape(n) && !DoubleStatement(n) && !DoubleTerm(n)
    ensures Subterms(n) == [n] + SubtermsAll(Children(n))
  {
    hide SubtermsAll, SubtermsOpt, Optional;
    match n
    case Function(_, params, ret, body) =>
      SubtermsThree(params, Optional(ret), body);
      SubtermsOptional(ret);
    case If(condition, yes, no) =>
      SubtermsThree([condition], yes, no);
      SubtermsOne(condition);
    case Try(body, handler, last) => SubtermsThree(body, handler, last);
    case Closure(params, ret, body) =>
      SubtermsThree(params, Optional(ret), body);
      SubtermsOptional(ret);
    case Arm(pattern, guard, value) =>
      SubtermsThree([pattern], Optional(guard), [value]);
      SubtermsOne(pattern);
      SubtermsOptional(guard);
      SubtermsOne(value);
  }

  /** The worklist skips no field: the nodes of a tree are its root and the nodes of
      the children that are scheduled. */
  lemma ChildrenAreComplete(n: Node)
    ensures Subterms(n) == [n] + SubtermsAll(Children(n))
  {
    hide Subterms, SubtermsAll, Children, SimpleStatement, SimpleTerm, SimpleShape, DoubleStatement, DoubleTerm;
    if SimpleStatement(n) {
      SimpleStatementIsComplete(n);
    } else if SimpleTerm(n) {
      SimpleTermIsComplete(n);
    } else if SimpleShape(n) {
      SimpleShapeIsComplete(n);
    } else if DoubleStatement(n) {
      DoubleStatementIsComplete(n);
    } else if DoubleTerm(n) {
      DoubleTermIsComplete(n);
    } else {
      TripleIsComplete(n);
    }
  }

  lemma NoSubterms()
    ensures SubtermsAll([]) == []
  {
  }

  // ---------- what a worklist stands for ----------

  datatype Entry = Entry(node: Node, depth: nat)

  /** An await, an async function or an async function type. */
  predicate Unsupported(n: Node)
  {
    match n
    case Await(_) => true
    case Function(isAsync, _, _, _) => isAsync
    case TypeFunction(isAsync, _, _) => isAsync
    case _ => false
  }

  lemma UnsupportedIs(n: Node)
    ensures Unsupported(n) <==> IsAsync(n)
  {
  }

  /** An async construct anywhere in the trees `ns`. */
  ghost predicate AsyncIn(ns: seq<Node>)
  {
    exists k :: 0 <= k < |SubtermsAll(ns)| && Unsupported(SubtermsAll(ns)[k])
  }

  /** A node of the trees below `pending` deeper than `limit`. */
  ghost predicate DeepIn(pending: seq<Entry>, limit: nat)
  {
    exists k :: 0 <= k < |pending| && pending[k].depth + Height(pending[k].node) > limit
  }

  function NodesOf(pending: seq<Entry>): (r: seq<Node>)
    ensures |r| == |pending| && forall k :: 0 <= k < |r| ==> r[k] == pending[k].node
  {
    seq(|pending|, k requires 0 <= k < |pending| => pending[k].node)
  }

  function Entries(ns: seq<Node>, depth: nat): (r: seq<Entry>)
    ensures |r| == |ns| && forall k :: 0 <= k < |r| ==> r[k] == Entry(ns[k], depth)
  {
    seq(|ns|, k requires 0 <= k < |ns| => Entry(ns[k], depth))
  }

  lemma {:induction false} HeightIsMax(parent: Node, ns: seq<Node>, limit: nat)
    requires forall k :: 0 <= k < |ns| ==> ns[k] < parent
    ensures HeightAll(parent, ns) <= limit <==> forall k :: 0 <= k < |ns| ==> 1 + Height(ns[k]) <= limit
  {
    hide Height;
    if ns != [] {
      HeightIsMax(parent, ns[1..], limit);
      assert forall k :: 0 < k < |ns| ==> ns[k] == ns[1..][k - 1];
    }
  }

  /** Depth is inherited: a tree at `depth` is too deep exactly when a child at `depth + 1` is. */
  lemma DeepStep(rest: seq<Entry>, e: Entry, limit: nat)
    requires e.depth <= limit
    ensures DeepIn(rest + [e], limit) <==> DeepIn(rest + Entries(Children(e.node), e.depth + 1), limit)
  {
    var kids := Entries(Children(e.node), e.depth + 1);
    ChildrenAreSmaller(e.node);
    HeightIsMax(e.node, Children(e.node), limit - e.depth);
    assert Height(e.node) == HeightAll(e.node, Children(e.node));
    hide Height, HeightAll, Children;
    DeepSplit(rest, [e], limit);
    DeepSplit(rest, kids, limit);
    DeepKids(Children(e.node), e.depth + 1, limit);
    assert [e][0] == e;
  }

  lemma DeepKids(ns: seq<Node>, depth: nat, limit: nat)
    ensures DeepIn(Entries(ns, depth), limit) <==> !forall k :: 0 <= k < |ns| ==> depth + Height(ns[k]) <= limit
  {
    hide Height;
    var kids := Entries(ns, depth);
    if k :| 0 <= k < |ns| && depth + Height(ns[k]) > limit {
      assert kids[k].depth + Height(kids[k].node) > limit;
    }
  }

  lemma DeepSplit(a: seq<Entry>, b: seq<Entry>, limit: nat)
    ensures DeepIn(a + b, limit) <==> DeepIn(a, limit) || DeepIn(b, limit)
  {
    hide Height;
    if k :| 0 <= k < |a| && a[k].depth + Height(a[k].node) > limit {
      assert (a + b)[k] == a[k];
    }
    if k :| 0 <= k < |b| && b[k].depth + Height(b[k].node) > limit {
      assert (a + b)[|a| + k] == b[k];
    }
  }

  lemma AsyncSplit(a: seq<Node>, b: seq<Node>)
    ensures AsyncIn(a + b) <==> AsyncIn(a) || AsyncIn(b)
  {
    SubtermsConcat(a, b);
    hide SubtermsAll, Unsupported;
    var x, y := SubtermsAll(a), SubtermsAll(b);
    assert forall k :: 0 <= k < |x| ==> (x + y)[k] == x[k];
    assert forall k :: 0 <= k < |y| ==> (x + y)[|x| + k] == y[k];
  }

  lemma AsyncOne(n: Node)
    ensures AsyncIn([n]) <==> IsAsync(n) || AsyncIn(Children(n))
  {
    SubtermsOne(n);
    ChildrenAreComplete(n);
    UnsupportedIs(n);
    hide SubtermsAll, Subterms, Children, IsAsync, Unsupported;
    var kids := SubtermsAll(Children(n));
    assert ([n] + kids)[0] == n;
    assert forall k :: 0 <= k < |kids| ==> ([n] + kids)[k + 1] == kids[k];
  }

  /** Replacing the last entry by its children keeps the async verdict, up to that
      entry itself, and removes one node. */
  lemma WorkStep(rest: seq<Entry>, e: Entry)
    ensures var next := NodesOf(rest + Entries(Children(e.node), e.depth + 1));
            && (AsyncIn(NodesOf(rest + [e])) <==> IsAsync(e.node) || AsyncIn(next))
            && |SubtermsAll(NodesOf(rest + [e]))| == |SubtermsAll(next)| + 1
  {
    hide SubtermsAll, Subterms, Children, IsAsync;
    var kids := Entries(Children(e.node), e.depth + 1);
    assert NodesOf(rest + kids) == NodesOf(rest) + Children(e.node);
    assert NodesOf(rest + [e]) == NodesOf(rest) + [e.node];
    AsyncSplit(NodesOf(rest), Children(e.node));
    AsyncSplit(NodesOf(rest), [e.node]);
    AsyncOne(e.node);
    SubtermsConcat(NodesOf(rest), Children(e.node));
    SubtermsConcat(NodesOf(rest), [e.node]);
    SubtermsOne(e.node);
    ChildrenAreComplete(e.node);
  }

  lemma {:induction false} SubtermsAtLeast(ns: seq<Node>)
    ensures |SubtermsAll(ns)| >= |ns|
  {
    if ns != [] {
      SubtermsAtLeast(ns[1..]);
    }
  }

  // ---------- the worklist ----------

  datatype Verdict = Clean | AsyncFound | DepthLimit | NodeLimit

  class Inspection {
    var pending: seq<Entry>
    var scheduled: nat
    const maxDepth: nat
    const maxNodes: nat

    /** The worklist never holds more than the nodes scheduled so far, and these
        never exceed the budget. */
    ghost predicate Valid()
      reads this
    {
      && |pending| <= scheduled <= maxNodes
      && forall k :: 0 <= k < |pending| ==> pending[k].depth <= maxDepth
    }

    /** All nodes, counted with those already handled. */
    ghost function Total(): nat
      reads this
      requires Valid()
    {
      SubtermsAtLeast(NodesOf(pending));
      scheduled - |pending| + |SubtermsAll(NodesOf(pending))|
    }

    constructor (maxDepth: nat, maxNodes: nat)
      ensures Valid() && pending == [] && scheduled == 0
      ensures this.maxDepth == maxDepth && this.maxNodes == maxNodes
    {
      this.maxDepth, this.maxNodes := maxDepth, maxNodes;
      pending, scheduled := [], 0;
    }

    /** `push`: refused exactly when the node is too deep or the budget is spent. */
    method Push(node: Node, depth: nat) returns (v: Verdict)
      requires Valid()
      modifies this
      ensures Valid()
      ensures v == if depth > maxDepth then DepthLimit else if old(scheduled) == maxNodes then NodeLimit else Clean
      ensures v == Clean ==> pending == old(pending) + [Entry(node, depth)] && scheduled == old(scheduled) + 1
      ensures v != Clean ==> pending == old(pending) && scheduled == old(scheduled)
    {
      if depth > maxDepth {
        return DepthLimit;
      }
      if scheduled >= maxNodes {
        return NodeLimit;
      }
      scheduled := scheduled + 1;
      pending := pending + [Entry(node, depth)];
      return Clean;
    }

    /** Push a list of nodes at one depth, as the item loop, `body` and the arms of `run` do. */
    method PushAll(nodes: seq<Node>, depth: nat) returns (v: Verdict)
      requires Valid()
      modifies this
      ensures Valid()
      ensures v == Clean <==> nodes == [] || (depth <= maxDepth && old(scheduled) + |nodes| <= maxNodes)
      ensures v == Clean ==> && pending == old(pending) + Entries(nodes, depth)
                             && scheduled == old(scheduled) + |nodes|
      ensures v == DepthLimit ==> nodes != [] && depth > maxDepth
      ensures v == NodeLimit ==> old(scheduled) + |nodes| > maxNodes
      ensures v != AsyncFound
    {
      for k := 0 to |nodes|
        invariant Valid() && scheduled == old(scheduled) + k
        invariant pending == old(pending) + Entries(nodes[..k], depth)
        invariant k > 0 ==> depth <= maxDepth
      {
        v := Push(nodes[k], depth);
        if v != Clean {
          return;
        }
        assert Entries(nodes[..k + 1], depth) == Entries(nodes[..k], depth) + [Entry(nodes[k], depth)];
      }
      assert nodes[..|nodes|] == nodes;
      v := Clean;
    }

    /** `run`: accepts exactly when nothing scheduled is or contains an async
        construct, nothing lies too deep and all nodes fit the budget. Each refusal
        names a true reason. */
    method Run() returns (v: Verdict)
      requires Valid()
      modifies this
      ensures Valid()
      ensures v == Clean <==> && !AsyncIn(NodesOf(old(pending))) && !DeepIn(old(pending), maxDepth)
                              && old(Total()) <= maxNodes
      ensures v == AsyncFound ==> AsyncIn(NodesOf(old(pending)))
      ensures v == DepthLimit ==> DeepIn(old(pending), maxDepth)
      ensures v == NodeLimit ==> old(Total()) > maxNodes
    {
      hide SubtermsAll, Subterms, Children, IsAsync, Height;
      while |pending| > 0
        invariant Valid() && Total() == old(Total())
        invariant AsyncIn(NodesOf(pending)) <==> AsyncIn(NodesOf(old(pending)))
        invariant DeepIn(pending, maxDepth) <==> DeepIn(old(pending), maxDepth)
        decreases maxNodes - scheduled, |pending|
      {
        var last := |pending| - 1;
        var e := pending[last];
        var rest := pending[..last];
        assert pending == rest + [e];
        WorkStep(rest, e);
        DeepStep(rest, e, maxDepth);
        pending := rest;
        if IsAsync(e.node) {
          return AsyncFound;
        }
        Refused(rest, Children(e.node), e.depth + 1, maxDepth);
        v := PushAll(Children(e.node), e.depth + 1);
        if v != Clean {
          return;
        }
      }
      NothingLeft();
      v := Clean;
    }
  }

  /** Why a refused push refutes the whole: a child below the limit is deep, and the
      children are among the nodes to be counted. */
  lemma Refused(rest: seq<Entry>, kids: seq<Node>, depth: nat, limit: nat)
    ensures kids != [] && depth > limit ==> DeepIn(rest + Entries(kids, depth), limit)
    ensures |SubtermsAll(NodesOf(rest + Entries(kids, depth)))| >= |rest| + |kids|
  {
    var all := rest + Entries(kids, depth);
    SubtermsAtLeast(NodesOf(all));
    if kids != [] && depth > limit {
      assert all[|rest|] == Entry(kids[0], depth);
    }
  }

  lemma NothingLeft()
    ensures NodesOf([]) == [] && !AsyncIn([]) && |SubtermsAll([])| == 0
  {
  }

  /** `reject_compiled_async`: a program is accepted exactly when no async function,
      await or async function type occurs anywhere in it, no node is nested deeper
      than the limit and there are no more nodes than the limit. */
  method RejectCompiledAsync(items: seq<Node>) returns (v: Verdict)
    ensures v == Clean <==> && !AsyncIn(items) && |SubtermsAll(items)| <= 262144
                            && forall k :: 0 <= k < |items| ==> Height(items[k]) <= 512
    ensures v == AsyncFound ==> AsyncIn(items)
    ensures v == NodeLimit ==> |SubtermsAll(items)| > MAX_INSPECTION_NODES
    ensures v == DepthLimit ==> exists k :: 0 <= k < |items| && Height(items[k]) > MAX_INSPECTION_DEPTH
  {
    hide SubtermsAll, Subterms, Height;
    SubtermsAtLeast(items);
    DeepKids(items, 0, MAX_INSPECTION_DEPTH);
    var inspection := new Inspection(MAX_INSPECTION_DEPTH, MAX_INSPECTION_NODES);
    v := inspection.PushAll(items, 0);
    if v == Clean {
      assert inspection.pending == Entries(items, 0);
      assert NodesOf(Entries(items, 0)) == items;
      v := inspection.Run();
    }
  }
}
