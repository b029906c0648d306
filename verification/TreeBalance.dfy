/** The colouring rules of red-black trees, on the shapes of TreeShape. */
module TreeBalance {
  import opened Basics
  import opened TreeShape
  import opened Words

  ghost predicate IsRed(t: Tree) { t.Nd? && t.c.Red? }

  // Number of black nodes on the leftmost path; on an RbOk tree, on every path.
  ghost function Bh(t: Tree): nat {
    if t.Leaf? then 0 else Bh(t.l) + (if t.c.Black? then 1 else 0)
  }

  /** No red node has a red child and every path to a leaf has the same number of black nodes. */
  ghost predicate RbOk(t: Tree) {
    t.Nd? ==>
      && RbOk(t.l) && RbOk(t.r) && Bh(t.l) == Bh(t.r)
      && (t.c.Red? ==> !IsRed(t.l) && !IsRed(t.r))
  }

  ghost predicate BlackAbove(x: Ctx) { !x.Top? && x.c.Black? }

  // A subtree of black height h, itself in order, would complete x to a tree in order.
  ghost predicate CtxOk(x: Ctx, h: nat) {
    match x
    case Top => true
    case InL(_, c, s, up) =>
      && RbOk(s) && Bh(s) == h && (c.Red? ==> !IsRed(s) && BlackAbove(up))
      && CtxOk(up, h + if c.Black? then 1 else 0)
    case InR(s, _, c, up) =>
      && RbOk(s) && Bh(s) == h && (c.Red? ==> !IsRed(s) && BlackAbove(up))
      && CtxOk(up, h + if c.Black? then 1 else 0)
  }

  ghost predicate Balanced(x: Ctx, t: Tree) {
    RbOk(t) && CtxOk(x, Bh(t)) && (IsRed(t) ==> BlackAbove(x))
  }

  // Insertion: the focus is red, and its parent may be red too.
  ghost predicate RedFocus(x: Ctx, t: Tree) {
    IsRed(t) && RbOk(t) && CtxOk(x, Bh(t))
  }

  // Removal: the focus misses one black node; if it is red, painting it black repairs everything.
  ghost predicate Short(x: Ctx, t: Tree) {
    && (t.Nd? ==> RbOk(t.l) && RbOk(t.r) && Bh(t.l) == Bh(t.r))
    && CtxOk(x, Bh(t) + 1)
  }

  lemma BalancedStep(x: Ctx, t: Tree)
    requires !x.Top?
    ensures Balanced(x, t) <==> Balanced(x.up, PlugOne(x, t))
  {}

  lemma {:induction false} BalancedUp(path: Ctx, base: Ctx, t: Tree)
    ensures Balanced(Append(path, base), t) <==> Balanced(base, Plug(path, t))
    decreases path
  {
    match path
    case Top =>
    case InL(n, c, r, up) =>
      BalancedStep(Append(path, base), t);
      BalancedUp(up, base, Nd(t, n, c, r));
    case InR(l, n, c, up) =>
      BalancedStep(Append(path, base), t);
      BalancedUp(up, base, Nd(l, n, c, t));
  }

  ghost function Depth(x: Ctx): nat { if x.Top? then 0 else 1 + Depth(x.up) }

  // What the insertion loop reads when the focus and its parent are both red.
  lemma RedRedReads(x: Ctx, t: Tree, root: Ref, m: Memory)
    requires Zip(x, t, root, m) && RedFocus(x, t) && !x.Top? && x.c.Red?
    ensures BlackAbove(x.up) && x.n in m && x.up.n in m && x.n != NULL && x.up.n != NULL && m[x.n].parent == x.up.n
    ensures x.up.InL? <==> m[x.up.n].left == x.n
  {
    assert CRep(x.up, root, x.n, m) && COrd(x.up) && Above(Lo(x.up), x.n.key) && Below(x.n.key, Hi(x.up));
    if x.up.InR? { RootInside(x.up.l, Lo(x.up.up), At(x.up.n.key)); }
  }

  lemma RedRedFacts(x: Ctx, t: Tree, root: Ref, m: Memory)
    requires Zip(x, t, root, m) && RedFocus(x, t) && !x.Top? && x.c.Red?
    ensures BlackAbove(x.up) && x.n in m && x.up.n in m && x.n != NULL && x.up.n != NULL
    ensures x.InL? ==> m[x.n].left == t.n && m[x.n].right != t.n
    ensures x.InR? ==> m[x.n].right == t.n && m[x.n].left != t.n
    ensures x.up.InL? ==> m[x.up.n].right == RootOf(x.up.r) && Rep(x.up.r, x.up.n, m)
    ensures x.up.InR? ==> m[x.up.n].left == RootOf(x.up.l) && Rep(x.up.l, x.up.n, m)
    ensures Zip(x.up, PlugOne(x, t), root, m) && Zip(x.up.up, PlugOne(x.up, PlugOne(x, t)), root, m)
    ensures Items(x, t) == Items(x.up.up, PlugOne(x.up, PlugOne(x, t)))
  {
    RedRedReads(x, t, root, m);
    Focus(x, t, root, m);
    Focus(x.up, PlugOne(x, t), root, m);
  }

  ghost function Uncle(x: Ctx): Tree
    requires !x.Top?
  {
    if x.InL? then x.r else x.l
  }

  // Red uncle: parent and uncle turn black, the grandparent red.
  ghost function Recolored(g: Tree): Tree
    requires g.Nd? && g.l.Nd? && g.r.Nd?
  {
    Nd(g.l.(c := Black), g.n, Red, g.r.(c := Black))
  }

  lemma RecolorBalance(x: Ctx, t: Tree)
    requires RedFocus(x, t) && !x.Top? && x.c.Red? && BlackAbove(x.up) && IsRed(Uncle(x.up))
    ensures RedFocus(x.up.up, Recolored(PlugOne(x.up, PlugOne(x, t))))
  {
    assert CtxOk(x.up, Bh(t)) && CtxOk(x.up.up, Bh(t) + 1);
    assert PlugOne(x, t).Nd? && Uncle(x.up).Nd?;
    var p, u := PlugOne(x, t).(c := Black), Uncle(x.up).(c := Black);
    assert RbOk(p) && RbOk(u) && Bh(p) == Bh(u) == Bh(t) + 1;
  }

  // Black uncle: where the two rotations leave the lower red node.
  ghost function Rotated(x: Ctx, t: Tree): (Ctx, Tree)
    requires t.Nd? && !x.Top? && !x.up.Top?
  {
    var g := x.up;
    match (x, g)
    case (InL(n, c, r, _), InL(_, _, u, up)) => (InL(n, Black, Nd(r, g.n, Red, u), up), t)
    case (InR(l, n, c, _), InL(_, _, u, up)) =>
      (InL(t.n, Black, Nd(t.r, g.n, Red, u), up), Nd(l, n, c, t.l))
    case (InR(l, n, c, _), InR(u, _, _, up)) => (InR(Nd(u, g.n, Red, l), n, Black, up), t)
    case (InL(n, c, r, _), InR(u, _, _, up)) =>
      (InR(Nd(u, g.n, Red, t.l), t.n, Black, up), Nd(t.r, n, c, r))
  }

  lemma RotateBalance(x: Ctx, t: Tree)
    requires RedFocus(x, t) && !x.Top? && x.c.Red? && BlackAbove(x.up) && !IsRed(Uncle(x.up))
    ensures var (x', t') := Rotated(x, t); RedFocus(x', t')
  {
    var (x', t') := Rotated(x, t);
    assert CtxOk(x.up, Bh(t)) && CtxOk(x.up.up, Bh(t) + 1);
    assert RbOk(Uncle(x.up)) && Bh(Uncle(x.up)) == Bh(t);
    assert RbOk(t') && Bh(t') == Bh(t);
    assert RbOk(Uncle(x')) && Bh(Uncle(x')) == Bh(t);
  }

  // ---- removal ----

  // The sibling of a focus that misses a black node is never NULL.
  lemma ShortSibling(x: Ctx, t: Tree)
    requires Short(x, t) && !x.Top?
    ensures Uncle(x).Nd? && RbOk(Uncle(x)) && (IsRed(Uncle(x)) ==> x.c.Black?)
  {}

  // Red sibling: it turns black, the parent red, and the parent rotates towards the focus.
  ghost function AfterRedSibling(x: Ctx): Ctx
    requires !x.Top? && Uncle(x).Nd?
  {
    match x
    case InL(n, _, s, up) => InL(n, Red, s.l, InL(s.n, Black, s.r, up))
    case InR(s, n, _, up) => InR(s.r, n, Red, InR(s.l, s.n, Black, up))
  }

  lemma RedSiblingShort(x: Ctx, t: Tree)
    requires Short(x, t) && !x.Top? && IsRed(Uncle(x))
    ensures var x' := AfterRedSibling(x); Short(x', t) && Uncle(x').Nd? && !IsRed(Uncle(x'))
  {
    var x' := AfterRedSibling(x);
    assert RbOk(Uncle(x')) && Bh(Uncle(x')) == Bh(t) + 1;
    assert CtxOk(x'.up, Bh(t) + 1);
  }

  // Black sibling with two black children: it turns red, and the parent becomes the focus.
  ghost function RedSibling(x: Ctx): Ctx
    requires !x.Top? && Uncle(x).Nd?
  {
    if x.InL? then x.(r := x.r.(c := Red)) else x.(l := x.l.(c := Red))
  }

  lemma RecolorShort(x: Ctx, t: Tree)
    requires Short(x, t) && !IsRed(t) && !x.Top? && Uncle(x).Nd? && !IsRed(Uncle(x))
    requires !IsRed(Uncle(x).l) && !IsRed(Uncle(x).r)
    ensures Short(x.up, PlugOne(RedSibling(x), t))
  {
    assert RbOk(t);
    var s := Uncle(x).(c := Red);
    assert RbOk(s) && Bh(s) == Bh(t);
    assert CtxOk(x.up, Bh(t) + 1 + if x.c.Black? then 1 else 0);
  }

  // Black sibling with a red child: one or two rotations supply the missing black node.
  ghost function Refilled(x: Ctx, t: Tree): Tree
    requires !x.Top? && Uncle(x).Nd?
    requires x.InL? && !IsRed(x.r.r) ==> x.r.l.Nd?
    requires x.InL? && IsRed(x.r.r) ==> x.r.r.Nd?
    requires x.InR? && !IsRed(x.l.l) ==> x.l.r.Nd?
    requires x.InR? && IsRed(x.l.l) ==> x.l.l.Nd?
  {
    match x
    case InL(n, c, s, _) =>
      if IsRed(s.r) then Nd(Nd(t, n, Black, s.l), s.n, c, s.r.(c := Black))
      else Nd(Nd(t, n, Black, s.l.l), s.l.n, c, Nd(s.l.r, s.n, Black, s.r))
    case InR(s, n, c, _) =>
      if IsRed(s.l) then Nd(s.l.(c := Black), s.n, c, Nd(s.r, n, Black, t))
      else Nd(Nd(s.l, s.n, Black, s.r.l), s.r.n, c, Nd(s.r.r, n, Black, t))
  }

  lemma RefillBalance(x: Ctx, t: Tree)
    requires Short(x, t) && !IsRed(t) && !x.Top? && Uncle(x).Nd? && !IsRed(Uncle(x))
    requires IsRed(Uncle(x).l) || IsRed(Uncle(x).r)
    ensures Balanced(x.up, Refilled(x, t))
  {
    assert RbOk(t);
    var s := Uncle(x);
    assert RbOk(s) && Bh(s) == Bh(t) + 1 && RbOk(s.l) && RbOk(s.r) && Bh(s.l) == Bh(s.r) == Bh(t);
    assert CtxOk(x.up, Bh(t) + 1 + if x.c.Black? then 1 else 0);
    var w := Refilled(x, t);
    assert RbOk(w.l) && RbOk(w.r) && Bh(w.l) == Bh(w.r) == Bh(t) + 1;
  }

  // After painting a red focus black, or at the root, nothing is missing any more.
  ghost function Painted(t: Tree): Tree { if t.Leaf? then t else t.(c := Black) }

  lemma PaintedBalance(x: Ctx, t: Tree)
    requires (Short(x, t) && (IsRed(t) || x.Top?)) || (Balanced(x, t) && x.Top?)
    ensures Balanced(x, Painted(t))
  {}

  // What a removal owes after a node with at most one child is cut out.
  lemma SpliceBalance(x: Ctx, t: Tree, kid: Tree)
    requires t.Nd? && Balanced(x, t) && ((t.l.Leaf? && kid == t.r) || (t.r.Leaf? && kid == t.l))
    ensures t.c.Black? ==> Short(x, kid)
    ensures t.c.Red? ==> Balanced(x, kid)
  {
    assert RbOk(kid) && Bh(kid) == 0;
  }

  // The tests by which RB_REMOVE_COLOR finds out where it is.
  lemma SideFacts(x: Ctx, t: Tree, root: Ref, m: Memory)
    requires Zip(x, t, root, m) && Short(x, t)
    ensures root == RootOf(t) <==> x.Top?
    ensures t.Nd? ==> t.n in m && t.n != NULL && m[t.n].color == t.c
    ensures !x.Top? ==> x.n in m && m[x.n].color == x.c && Uncle(x).Nd? && Uncle(x).n in m
    ensures x.InL? ==> m[x.n].left == RootOf(t) && m[x.n].right == x.r.n && m[x.r.n].color == x.r.c
    ensures x.InR? ==> m[x.n].left == x.l.n != RootOf(t) && m[x.l.n].color == x.l.c
  {
    if !x.Top? {
      ShortSibling(x, t);
      RootInCtx(x, root, RootOf(t), m);
      assert Rep(Uncle(x), x.n, m);
    }
  }

  ghost function Measure(x: Ctx, t: Tree): nat { if IsRed(t) then 0 else Depth(x) + 1 }

  // Black heights and colours do not depend on which node sits where.
  lemma {:induction false} CtxOkRename(path: Ctx, l: Tree, n: Ref, n': Ref, c: Color, up: Ctx, h: nat)
    requires CtxOk(Append(path, InR(l, n, c, up)), h)
    ensures CtxOk(Append(path, InR(l, n', c, up)), h)
  {
    match path
    case Top =>
    case InL(_, pc, _, pup) => CtxOkRename(pup, l, n, n', c, up, h + if pc.Black? then 1 else 0);
    case InR(_, _, pc, pup) => CtxOkRename(pup, l, n, n', c, up, h + if pc.Black? then 1 else 0);
  }

  ghost function Height(t: Tree): nat { if t.Leaf? then 0 else 1 + Max(Height(t.l), Height(t.r)) }

  lemma {:induction false} BlackHeightBounds(t: Tree)
    requires RbOk(t)
    ensures Pow2(Bh(t)) <= |InOrder(t)| + 1
    ensures Height(t) <= 2 * Bh(t) + if IsRed(t) then 1 else 0
  {
    if t.Nd? {
      BlackHeightBounds(t.l);
      BlackHeightBounds(t.r);
    }
  }

  lemma SquareMono(a: nat, b: nat)
    requires a <= b
    ensures a * a <= b * b
  {
    assert a * a <= a * b;
    assert a * b <= b * b;
  }

  /** The height claim of the header comment, 2 lg (n + 1), without logarithms. */
  lemma HeightBound(t: Tree)
    requires Balanced(Top, t)
    ensures Pow2(Height(t)) <= (|InOrder(t)| + 1) * (|InOrder(t)| + 1)
  {
    BlackHeightBounds(t);
    Pow2Mono(Height(t), Bh(t) + Bh(t));
    Pow2Add(Bh(t), Bh(t));
    SquareMono(Pow2(Bh(t)), |InOrder(t)| + 1);
  }
}
