/** Match patterns and their stack-free traversals: the preorder iterator,
    comparison, cloning and release. Each loop is tied to a recursive definition. */
module MatchPattern {
  import opened Text

  /** `L` stands for the literal type. */
  datatype Pattern<L> =
    | Wildcard
    | Binding(name: string)
    | Literal(literal: L)
    | Variant(enumName: string, variant: string, fields: seq<Pattern<L>>)
  {
    function Fields(): seq<Pattern<L>>
    {
      if Variant? then fields else []
    }
  }

  lemma Assoc<T>(a: seq<T>, b: seq<T>, c: seq<T>)
    ensures a + b + c == a + (b + c)
  {
  }

  // ---------- recursive definitions ----------

  function Pre<L>(p: Pattern<L>): (r: seq<Pattern<L>>)
    ensures |r| > 0 && r[0] == p
    decreases p, 1
  {
    match p
    case Variant(_, _, fields) => [p] + PreAll(fields)
    case _ => [p]
  }

  function PreAll<L>(ps: seq<Pattern<L>>): seq<Pattern<L>>
    decreases ps, 0
  {
    if |ps| == 0 then [] else Pre(ps[0]) + PreAll(ps[1..])
  }

  lemma PreUnfold<L>(p: Pattern<L>)
    ensures Pre(p) == [p] + PreAll(p.Fields())
  {
  }

  function Height<L>(p: Pattern<L>): nat
    decreases p, 1
  {
    match p
    case Variant(_, _, fields) => if |fields| == 0 then 0 else 1 + MaxHeight(fields)
    case _ => 0
  }

  function MaxHeight<L>(ps: seq<Pattern<L>>): (h: nat)
    ensures forall k :: 0 <= k < |ps| ==> Height(ps[k]) <= h
    decreases ps, 0
  {
    if |ps| == 0 then 0
    else
      var rest := MaxHeight(ps[1..]);
      assert forall k :: 1 <= k < |ps| ==> ps[k] == ps[1..][k - 1];
      if Height(ps[0]) > rest then Height(ps[0]) else rest
  }

  function Size<L>(p: Pattern<L>): (n: nat)
    ensures n >= 1
    decreases p, 1
  {
    match p
    case Variant(_, _, fields) => 1 + SizeAll(fields)
    case _ => 1
  }

  function SizeAll<L>(ps: seq<Pattern<L>>): nat
    decreases ps, 0
  {
    if |ps| == 0 then 0 else Size(ps[0]) + SizeAll(ps[1..])
  }

  lemma {:induction false} SizeConcat<L>(a: seq<Pattern<L>>, b: seq<Pattern<L>>)
    ensures SizeAll(a + b) == SizeAll(a) + SizeAll(b)
  {
    if |a| == 0 {
      assert a + b == b;
    } else {
      hide Size;
      SizeConcat(a[1..], b);
      assert (a + b)[1..] == a[1..] + b && (a + b)[0] == a[0];
    }
  }

  // ---------- the preorder iterator ----------

  /** What a stack of sibling cursors still has to visit, innermost first. */
  function StackPre<L>(stack: seq<seq<Pattern<L>>>): seq<Pattern<L>>
    decreases |stack|
  {
    if |stack| == 0 then [] else PreAll(stack[|stack| - 1]) + StackPre(stack[..|stack| - 1])
  }

  lemma StackPush<L>(stack: seq<seq<Pattern<L>>>, top: seq<Pattern<L>>)
    ensures StackPre(stack + [top]) == PreAll(top) + StackPre(stack)
  {
    assert (stack + [top])[..|stack|] == stack;
  }

  class Preorder<L> {
    var root: Option<Pattern<L>>
    var children: seq<seq<Pattern<L>>>
    ghost var height: nat

    ghost function Remaining(): seq<Pattern<L>>
      reads this
    {
      (if root.Some? then Pre(root.value) else []) + StackPre(children)
    }

    /** Cursor `k` only holds nodes at least `k + 1` levels below the root, so the
        stack never outgrows the tree. */
    ghost predicate Valid()
      reads this
    {
      && |children| <= height
      && (root.Some? ==> children == [] && Height(root.value) <= height)
      && forall k, j :: 0 <= k < |children| && 0 <= j < |children[k]| ==> Height(children[k][j]) + k + 1 <= height
    }

    constructor (tree: Pattern<L>)
      ensures Valid() && Remaining() == Pre(tree) && height == Height(tree)
      ensures fresh(this)
    {
      root, children, height := Some(tree), [], Height(tree);
    }

    /** `next`: exactly the head of what remains, with the cursor stack bounded by
        the height of the tree. */
    method Next() returns (r: Option<Pattern<L>>)
      requires Valid()
      modifies this`root, this`children
      ensures Valid() && |children| <= height
      ensures old(Remaining()) == [] ==> r.None? && Remaining() == []
      ensures old(Remaining()) != [] ==> r == Some(old(Remaining())[0]) && Remaining() == old(Remaining())[1..]
    {
      hide Pre, PreAll, StackPre, Height;
      var node: Pattern<L>;
      ghost var all := Remaining();
      if root.Some? {
        node := root.value;
        assert StackPre(children) == [] by { EmptyStack(children); }
        PreUnfold(node);
        root := None;
        assert all == [node] + PreAll(node.Fields());
        assert PreAll(node.Fields()) + StackPre(children) == all[1..];
      } else {
        while |children| > 0 && |children[|children| - 1]| == 0
          invariant Valid() && root.None? && Remaining() == all
          decreases |children|
        {
          TopEmpty(children);
          children := children[..|children| - 1];
        }
        if |children| == 0 {
          EmptyStack(children);
          return None;
        }
        var last := |children| - 1;
        var top := children[last];
        node := top[0];
        TopNode(children);
        PreUnfold(node);
        children := children[last := top[1..]];
        assert all == [node] + (PreAll(node.Fields()) + StackPre(children));
      }
      FieldHeights(node);
      if node.Variant? && |node.fields| > 0 {
        StackPush(children, node.fields);
        children := children + [node.fields];
      } else {
        NoFields(node);
      }
      r := Some(node);
    }
  }

  lemma EmptyStack<L>(stack: seq<seq<Pattern<L>>>)
    requires |stack| == 0
    ensures StackPre(stack) == []
  {
  }

  lemma TopEmpty<L>(stack: seq<seq<Pattern<L>>>)
    requires |stack| > 0 && |stack[|stack| - 1]| == 0
    ensures StackPre(stack) == StackPre(stack[..|stack| - 1])
  {
  }

  lemma TopNode<L>(stack: seq<seq<Pattern<L>>>)
    requires |stack| > 0 && |stack[|stack| - 1]| > 0
    ensures var last := |stack| - 1;
            var top := stack[last];
            StackPre(stack) == Pre(top[0]) + StackPre(stack[last := top[1..]])
  {
    hide Pre;
    var last := |stack| - 1;
    var top := stack[last];
    var next := stack[last := top[1..]];
    assert next[..last] == stack[..last];
    Assoc(Pre(top[0]), PreAll(top[1..]), StackPre(stack[..last]));
  }

  lemma FieldHeights<L>(p: Pattern<L>)
    ensures forall k :: 0 <= k < |p.Fields()| ==> Height(p.Fields()[k]) < Height(p)
    ensures |p.Fields()| > 0 ==> Height(p) >= 1
  {
  }

  lemma NoFields<L>(p: Pattern<L>)
    requires !(p.Variant? && |p.fields| > 0)
    ensures PreAll(p.Fields()) == []
  {
  }

  /** Draining the iterator yields the recursive preorder. */
  method Drain<L>(tree: Pattern<L>) returns (visited: seq<Pattern<L>>)
    ensures visited == Pre(tree)
  {
    hide Pre, PreAll, StackPre, Height, Preorder<L>.Valid;
    var it := new Preorder(tree);
    visited := [];
    ghost var all := Pre(tree);
    ghost var rest := all;
    while true
      invariant fresh(it) && it.Valid() && it.Remaining() == rest && visited + rest == all
      decreases |rest|
    {
      var next := it.Next();
      if next.None? {
        return;
      }
      assert visited + [rest[0]] + rest[1..] == visited + rest;
      visited := visited + [next.value];
      rest := rest[1..];
    }
  }

  // ---------- comparison ----------

  /** Structural equality, with the literal comparison as a parameter (floating
      point literals need not equal themselves). */
  predicate Same<L(!new)>(eq: (L, L) -> bool, a: Pattern<L>, b: Pattern<L>)
    decreases a
  {
    match (a, b)
    case (Wildcard, Wildcard) => true
    case (Binding(x), Binding(y)) => x == y
    case (Literal(x), Literal(y)) => eq(x, y)
    case (Variant(e, v, fs), Variant(e', v', fs')) =>
      e == e' && v == v' && |fs| == |fs'| && forall k :: 0 <= k < |fs| ==> Same(eq, fs[k], fs'[k])
    case _ => false
  }

  /** What one comparison step looks at: names and arity, never the children. */
  predicate Agree<L>(eq: (L, L) -> bool, a: Pattern<L>, b: Pattern<L>)
  {
    match (a, b)
    case (Wildcard, Wildcard) => true
    case (Binding(x), Binding(y)) => x == y
    case (Literal(x), Literal(y)) => eq(x, y)
    case (Variant(e, v, fs), Variant(e', v', fs')) => e == e' && v == v' && |fs| == |fs'|
    case _ => false
  }

  predicate Lockstep<L>(eq: (L, L) -> bool, xs: seq<Pattern<L>>, ys: seq<Pattern<L>>)
  {
    if |xs| == 0 || |ys| == 0 then |xs| == |ys|
    else Agree(eq, xs[0], ys[0]) && Lockstep(eq, xs[1..], ys[1..])
  }

  predicate SameAll<L(!new)>(eq: (L, L) -> bool, xs: seq<Pattern<L>>, ys: seq<Pattern<L>>)
    requires |xs| == |ys|
  {
    forall k :: 0 <= k < |xs| ==> Same(eq, xs[k], ys[k])
  }

  /** With ordinary equality of literals, patterns are the same exactly when they are equal. */
  lemma {:induction false} SameIsEqual<L(!new)>(eq: (L, L) -> bool, a: Pattern<L>, b: Pattern<L>)
    requires forall x, y :: eq(x, y) <==> x == y
    ensures Same(eq, a, b) <==> a == b
    decreases a
  {
    if a.Variant? && b.Variant? && |a.fields| == |b.fields| {
      forall k | 0 <= k < |a.fields|
        ensures Same(eq, a.fields[k], b.fields[k]) <==> a.fields[k] == b.fields[k]
      {
        SameIsEqual(eq, a.fields[k], b.fields[k]);
      }
    }
  }

  lemma SameUnfold<L(!new)>(eq: (L, L) -> bool, a: Pattern<L>, b: Pattern<L>)
    ensures Same(eq, a, b) <==>
            Agree(eq, a, b) && |a.Fields()| == |b.Fields()| && SameAll(eq, a.Fields(), b.Fields())
  {
  }

  lemma LockstepCons<L>(eq: (L, L) -> bool, a: Pattern<L>, b: Pattern<L>, xs: seq<Pattern<L>>, ys: seq<Pattern<L>>)
    ensures Lockstep(eq, [a] + xs, [b] + ys) <==> Agree(eq, a, b) && Lockstep(eq, xs, ys)
  {
    hide Agree;
    assert ([a] + xs)[1..] == xs && ([b] + ys)[1..] == ys;
  }

  /** One tree in front: the lockstep walk over two preorders passes exactly when
      the trees are the same and the rest passes. */
  lemma {:induction false} TreeLockstep<L(!new)>(eq: (L, L) -> bool, a: Pattern<L>, b: Pattern<L>,
                                           xs: seq<Pattern<L>>, ys: seq<Pattern<L>>)
    ensures Lockstep(eq, Pre(a) + xs, Pre(b) + ys) <==> Same(eq, a, b) && Lockstep(eq, xs, ys)
    decreases a, 1
  {
    hide Pre, PreAll, Same, Agree, Lockstep, SameAll;
    PreUnfold(a);
    PreUnfold(b);
    Assoc([a], PreAll(a.Fields()), xs);
    Assoc([b], PreAll(b.Fields()), ys);
    LockstepCons(eq, a, b, PreAll(a.Fields()) + xs, PreAll(b.Fields()) + ys);
    SameUnfold(eq, a, b);
    AgreeArity(eq, a, b);
    if Agree(eq, a, b) {
      if a.Variant? {
        ForestLockstep(eq, a.Fields(), b.Fields(), xs, ys);
      } else {
        NoFields(a);
        NoFields(b);
        NoneSame(eq, a.Fields(), b.Fields());
        assert [] + xs == xs && [] + ys == ys;
      }
    }
  }

  lemma NoneSame<L(!new)>(eq: (L, L) -> bool, ps: seq<Pattern<L>>, qs: seq<Pattern<L>>)
    requires |ps| == |qs| == 0
    ensures SameAll(eq, ps, qs)
  {
  }

  lemma AgreeArity<L>(eq: (L, L) -> bool, a: Pattern<L>, b: Pattern<L>)
    ensures Agree(eq, a, b) ==> |a.Fields()| == |b.Fields()| && (a.Variant? <==> b.Variant?)
  {
  }

  lemma {:induction false} ForestLockstep<L(!new)>(eq: (L, L) -> bool, ps: seq<Pattern<L>>, qs: seq<Pattern<L>>,
                                             xs: seq<Pattern<L>>, ys: seq<Pattern<L>>)
    requires |ps| == |qs|
    ensures Lockstep(eq, PreAll(ps) + xs, PreAll(qs) + ys) <==> SameAll(eq, ps, qs) && Lockstep(eq, xs, ys)
    decreases ps, 0
  {
    hide Pre, Same, Agree, Lockstep;
    if |ps| == 0 {
      assert PreAll(ps) + xs == xs && PreAll(qs) + ys == ys;
    } else {
      Assoc(Pre(ps[0]), PreAll(ps[1..]), xs);
      Assoc(Pre(qs[0]), PreAll(qs[1..]), ys);
      TreeLockstep(eq, ps[0], qs[0], PreAll(ps[1..]) + xs, PreAll(qs[1..]) + ys);
      ForestLockstep(eq, ps[1..], qs[1..], xs, ys);
      assert SameAll(eq, ps, qs) <==> Same(eq, ps[0], qs[0]) && SameAll(eq, ps[1..], qs[1..]) by {
        assert forall k :: 1 <= k < |ps| ==> ps[k] == ps[1..][k - 1] && qs[k] == qs[1..][k - 1];
      }
    }
  }

  /** `PartialEq::eq`: the lockstep comparison of two preorder iterators decides
      structural equality. */
  method Equal<L(!new)>(eq: (L, L) -> bool, a: Pattern<L>, b: Pattern<L>) returns (r: bool)
    ensures r <==> Same(eq, a, b)
  {
    var left := new Preorder(a);
    var right := new Preorder(b);
    TreeLockstep(eq, a, b, [], []);
    assert Pre(a) + [] == Pre(a) && Pre(b) + [] == Pre(b);
    hide Pre, Same, Agree, StackPre, Height;
    ghost var xs, ys := Pre(a), Pre(b);
    while true
      invariant fresh(left) && fresh(right) && left != right && left.Valid() && right.Valid()
      invariant left.Remaining() == xs && right.Remaining() == ys
      invariant Same(eq, a, b) <==> Lockstep(eq, xs, ys)
      decreases |xs|
    {
      var x := left.Next();
      var y := right.Next();
      if x.None? && y.None? {
        return true;
      }
      if x.None? || y.None? || !Agree(eq, x.value, y.value) {
        return false;
      }
      xs, ys := xs[1..], ys[1..];
    }
  }

  // ---------- cloning ----------

  /** A variant under construction: finished fields, one hole, pending fields. */
  datatype CloneFrame<L> =
    CloneFrame(enumName: string, variant: string, remaining: seq<Pattern<L>>, fields: seq<Pattern<L>>)

  /** Fill the innermost hole with `p` and close every frame. */
  function Plug<L>(frames: seq<CloneFrame<L>>, p: Pattern<L>): Pattern<L>
    decreases |frames|
  {
    if |frames| == 0 then p
    else
      var f := frames[|frames| - 1];
      Plug(frames[..|frames| - 1], Variant(f.enumName, f.variant, f.fields + [p] + f.remaining))
  }

  /** Nodes the frames have not started to copy. */
  function Pending<L>(frames: seq<CloneFrame<L>>): nat
    decreases |frames|
  {
    if |frames| == 0 then 0
    else SizeAll(frames[|frames| - 1].remaining) + Pending(frames[..|frames| - 1])
  }

  lemma PlugPush<L>(frames: seq<CloneFrame<L>>, f: CloneFrame<L>, p: Pattern<L>)
    ensures Plug(frames + [f], p) == Plug(frames, Variant(f.enumName, f.variant, f.fields + [p] + f.remaining))
    ensures Pending(frames + [f]) == SizeAll(f.remaining) + Pending(frames)
  {
    assert (frames + [f])[..|frames|] == frames;
  }

  /** Close finished frames around `completed` until one still has a pending
      field, which becomes the next node to copy, or until nothing is left. */
  method CloseFrames<L>(frames: seq<CloneFrame<L>>, completed: Pattern<L>, ghost source: Pattern<L>)
    returns (frames': seq<CloneFrame<L>>, next: Option<Pattern<L>>, result: Pattern<L>)
    requires Plug(frames, completed) == source
    ensures next.None? ==> result == source
    ensures next.Some? ==> Plug(frames', next.value) == source && Size(next.value) + Pending(frames') <= Pending(frames)
  {
    hide Size;
    frames', next, result := frames, None, completed;
    while |frames'| > 0
      invariant Plug(frames', result) == source && Pending(frames') <= Pending(frames)
      decreases |frames'|
    {
      var last := |frames'| - 1;
      var f := frames'[last];
      var outer := frames'[..last];
      assert frames' == outer + [f];
      PlugPush(outer, f, result);
      var fields := f.fields + [result];
      if |f.remaining| > 0 {
        next := Some(f.remaining[0]);
        var waiting := CloneFrame(f.enumName, f.variant, f.remaining[1..], fields);
        PlugPush(outer, waiting, f.remaining[0]);
        assert fields + [f.remaining[0]] + f.remaining[1..] == fields + f.remaining;
        frames' := outer + [waiting];
        return;
      }
      assert fields + f.remaining == fields;
      frames', result := outer, Variant(f.enumName, f.variant, fields);
    }
  }

  lemma SizeCons<L>(p: Pattern<L>)
    requires p.Variant? && |p.fields| > 0
    ensures Size(p) == 1 + Size(p.fields[0]) + SizeAll(p.fields[1..])
  {
  }

  /** `Clone::clone`: the frame-based copy is the source tree. */
  method Clone<L>(source: Pattern<L>) returns (copy: Pattern<L>)
    ensures copy == source
  {
    var frames: seq<CloneFrame<L>> := [];
    var current := source;
    while true
      invariant Plug(frames, current) == source
      decreases Size(current) + Pending(frames)
    {
      if current.Variant? && |current.fields| > 0 {
        var first, rest := current.fields[0], current.fields[1..];
        var frame := CloneFrame(current.enumName, current.variant, rest, []);
        PlugPush(frames, frame, first);
        assert [] + [first] + rest == current.fields;
        SizeCons(current);
        frames, current := frames + [frame], first;
        continue;
      }
      var completed := match current
        case Wildcard => Wildcard
        case Binding(name) => Binding(name)
        case Literal(literal) => Literal(literal)
        case Variant(enumName, variant, _) => Variant(enumName, variant, []);
      var next;
      frames, next, copy := CloseFrames(frames, completed, source);
      if next.None? {
        return;
      }
      current := next.value;
    }
  }

  // ---------- release ----------

  /** A node without its children, which is all an ordinary destructor then sees. */
  function Shell<L>(p: Pattern<L>): Pattern<L>
  {
    if p.Variant? then p.(fields := []) else p
  }

  /** The order in which a last-in-first-out worklist releases a forest. */
  function ReleaseOrder<L>(ps: seq<Pattern<L>>): seq<Pattern<L>>
    decreases SizeAll(ps)
  {
    if |ps| == 0 then []
    else
      LastSize(ps);
      var last := ps[|ps| - 1];
      [Shell(last)] + ReleaseOrder(last.Fields()) + ReleaseOrder(ps[..|ps| - 1])
  }

  lemma LastSize<L>(ps: seq<Pattern<L>>)
    requires |ps| > 0
    ensures var last := ps[|ps| - 1];
            SizeAll(ps) == SizeAll(ps[..|ps| - 1]) + Size(last) && SizeAll(last.Fields()) + 1 == Size(last)
  {
    var last := ps[|ps| - 1];
    SizeConcat(ps[..|ps| - 1], [last]);
    assert ps[..|ps| - 1] + [last] == ps;
    assert SizeAll([last]) == Size(last);
  }

  lemma ReleaseSnoc<L>(init: seq<Pattern<L>>, last: Pattern<L>)
    ensures ReleaseOrder(init + [last]) == [Shell(last)] + ReleaseOrder(last.Fields()) + ReleaseOrder(init)
  {
    hide Shell, Size;
    assert (init + [last])[..|init|] == init;
  }

  lemma ReleaseNone<L>()
    ensures ReleaseOrder<L>([]) == []
  {
  }

  lemma {:induction false} ReleaseConcat<L>(a: seq<Pattern<L>>, b: seq<Pattern<L>>)
    ensures ReleaseOrder(a + b) == ReleaseOrder(b) + ReleaseOrder(a)
    decreases |b|
  {
    hide Shell, ReleaseOrder;
    if |b| == 0 {
      ReleaseNone<L>();
      assert a + b == a && b == [];
    } else {
      var last, init := b[|b| - 1], b[..|b| - 1];
      assert b == init + [last] && a + b == (a + init) + [last];
      ReleaseSnoc(init, last);
      ReleaseSnoc(a + init, last);
      ReleaseConcat(a, init);
      Assoc([Shell(last)] + ReleaseOrder(last.Fields()), ReleaseOrder(init), ReleaseOrder(a));
    }
  }

  /** `Drop::drop` below the root: children move to the worklist before their
      parent is released, so every released node is already childless, and the
      number of nodes left strictly falls. */
  method Release<L>(root: Pattern<L>) returns (released: seq<Pattern<L>>)
    ensures released == ReleaseOrder(root.Fields())
  {
    hide Shell, Size;
    released := [];
    if !root.Variant? || |root.fields| == 0 {
      return;
    }
    var pending := root.fields;
    while |pending| > 0
      invariant released + ReleaseOrder(pending) == ReleaseOrder(root.fields)
      decreases SizeAll(pending)
    {
      var last := |pending| - 1;
      var node := pending[last];
      var rest := pending[..last];
      LastSize(pending);
      ReleaseConcat(rest, node.Fields());
      SizeConcat(rest, node.Fields());
      Assoc([Shell(node)], ReleaseOrder(node.Fields()), ReleaseOrder(rest));
      Assoc(released, [Shell(node)], ReleaseOrder(node.Fields()) + ReleaseOrder(rest));
      pending := rest + node.Fields();
      released := released + [Shell(node)];
    }
  }

  function Shells<L>(ps: seq<Pattern<L>>): seq<Pattern<L>>
  {
    seq(|ps|, k requires 0 <= k < |ps| => Shell(ps[k]))
  }

  lemma ShellsConcat<L>(a: seq<Pattern<L>>, b: seq<Pattern<L>>)
    ensures Shells(a + b) == Shells(a) + Shells(b)
  {
  }

  /** Every node of the forest is released exactly once, as its own shell. */
  lemma {:induction false} ReleasedOnce<L>(ps: seq<Pattern<L>>)
    ensures multiset(ReleaseOrder(ps)) == multiset(Shells(PreAll(ps)))
    decreases SizeAll(ps)
  {
    hide Pre, Shell, Size, PreAll, SizeAll, ReleaseOrder, Shells;
    if |ps| == 0 {
      assert ps == [];
      NothingReleased<L>();
    } else {
      var last, init := ps[|ps| - 1], ps[..|ps| - 1];
      LastSize(ps);
      ReleasedOnce(init);
      ReleasedOnce(last.Fields());
      ReleasedSnoc(init, last);
      assert init + [last] == ps;
    }
  }

  /** The worklist releases as many nodes as the forest has. */
  lemma {:induction false} ReleasedCount<L>(ps: seq<Pattern<L>>)
    ensures |ReleaseOrder(ps)| == SizeAll(ps)
    decreases SizeAll(ps)
  {
    if |ps| > 0 {
      var last, init := ps[|ps| - 1], ps[..|ps| - 1];
      LastSize(ps);
      hide Shell, Size, SizeAll, ReleaseOrder;
      ReleasedCount(init);
      ReleasedCount(last.Fields());
      ReleaseSnoc(init, last);
      assert init + [last] == ps;
    }
  }

  predicate Childless<L>(ps: seq<Pattern<L>>)
  {
    forall k :: 0 <= k < |ps| ==> |ps[k].Fields()| == 0
  }

  /** No released node still has children, so its own destructor returns at once. */
  lemma {:induction false} ReleasedChildless<L>(ps: seq<Pattern<L>>)
    ensures Childless(ReleaseOrder(ps))
    decreases SizeAll(ps)
  {
    if |ps| > 0 {
      var last, init := ps[|ps| - 1], ps[..|ps| - 1];
      LastSize(ps);
      hide Shell, Size, SizeAll, ReleaseOrder;
      ReleasedChildless(init);
      ReleasedChildless(last.Fields());
      ReleaseSnoc(init, last);
      assert init + [last] == ps;
      ShellHasNoFields(last);
      ChildlessConcat([Shell(last)], ReleaseOrder(last.Fields()), ReleaseOrder(init));
    }
  }

  lemma ChildlessConcat<L>(a: seq<Pattern<L>>, b: seq<Pattern<L>>, c: seq<Pattern<L>>)
    requires Childless(a) && Childless(b) && Childless(c)
    ensures Childless(a + b + c)
  {
  }

  lemma NothingReleased<L>()
    ensures ReleaseOrder<L>([]) == Shells(PreAll<L>([])) == []
  {
  }

  lemma {:induction false} ReleasedSnoc<L>(init: seq<Pattern<L>>, last: Pattern<L>)
    requires multiset(ReleaseOrder(init)) == multiset(Shells(PreAll(init)))
    requires multiset(ReleaseOrder(last.Fields())) == multiset(Shells(PreAll(last.Fields())))
    ensures multiset(ReleaseOrder(init + [last])) == multiset(Shells(PreAll(init + [last])))
  {
    hide Pre, PreAll, Shell, ReleaseOrder, Shells;
    ReleaseSnoc(init, last);
    PreConcat(init, [last]);
    PreSingle(last);
    PreUnfold(last);
    ReleasedStep(init, last);
  }

  lemma {:induction false} ReleasedStep<L>(init: seq<Pattern<L>>, last: Pattern<L>)
    requires multiset(ReleaseOrder(init)) == multiset(Shells(PreAll(init)))
    requires multiset(ReleaseOrder(last.Fields())) == multiset(Shells(PreAll(last.Fields())))
    ensures multiset([Shell(last)] + ReleaseOrder(last.Fields()) + ReleaseOrder(init)) ==
            multiset(Shells(PreAll(init) + ([last] + PreAll(last.Fields()))))
  {
    hide Pre, PreAll, Shell, ReleaseOrder;
    ShellsConcat([last], PreAll(last.Fields()));
    ShellsConcat(PreAll(init), [last] + PreAll(last.Fields()));
    assert Shells([last]) == [Shell(last)];
  }

  lemma ShellHasNoFields<L>(p: Pattern<L>)
    ensures Shell(p).Fields() == []
  {
  }

  lemma {:induction false} PreConcat<L>(a: seq<Pattern<L>>, b: seq<Pattern<L>>)
    ensures PreAll(a + b) == PreAll(a) + PreAll(b)
  {
    if |a| == 0 {
      assert a + b == b;
    } else {
      hide Pre;
      PreConcat(a[1..], b);
      assert (a + b)[1..] == a[1..] + b && (a + b)[0] == a[0];
      Assoc(Pre(a[0]), PreAll(a[1..]), PreAll(b));
    }
  }

  lemma PreSingle<L>(p: Pattern<L>)
    ensures PreAll([p]) == Pre(p)
  {
    hide Pre;
    assert [p][1..] == [];
    assert Pre(p) + [] == Pre(p);
  }
}
