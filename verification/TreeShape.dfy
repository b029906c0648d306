/** Pure model of the shapes that a red-black tree in src/include/tree.h takes in memory.

    A `Tree` is the logical content of a subtree, a `Ctx` is everything around it (a zipper: the path
    from the subtree up to the root together with the siblings left behind), and `Rep`, `CRep` and `Zip`
    say that the cells in memory (left, right, parent, colour) hold exactly that shape. Keys are
    strictly ordered, so the key bounds of a subtree also tell its nodes from all others. */
module TreeShape {
  // A node is known by its address; its key, which tree.h never writes, comes with it.
  datatype Ref = Ref(addr: nat, key: int)

  ghost predicate HasKey(s: seq<Ref>, k: int) { exists e :: e in s && e.key == k }
  const NULL := Ref(0, 0)

  datatype Color = Red | Black
  datatype Cell = Cell(left: Ref, right: Ref, parent: Ref, color: Color)
  type Memory = map<Ref, Cell>

  datatype Tree = Leaf | Nd(l: Tree, n: Ref, c: Color, r: Tree)
  datatype Ctx = Top
    | InL(n: Ref, c: Color, r: Tree, up: Ctx)  // the hole is the left child of n
    | InR(l: Tree, n: Ref, c: Color, up: Ctx)  // the hole is the right child of n

  ghost function RootOf(t: Tree): Ref { if t.Leaf? then NULL else t.n }
  ghost function Parent(x: Ctx): Ref { if x.Top? then NULL else x.n }
  ghost function Root1(t: Tree): set<Ref> { if t.Leaf? then {} else {t.n} }
  ghost function Parent1(x: Ctx): set<Ref> { if x.Top? then {} else {x.n} }

  // ---- order --------------------------------------------------------------------------------

  ghost function InOrder(t: Tree): seq<Ref> {
    if t.Leaf? then [] else InOrder(t.l) + [t.n] + InOrder(t.r)
  }

  // The items that come before and after the hole of a context.
  ghost function Before(x: Ctx): seq<Ref> {
    match x
    case Top => []
    case InL(_, _, _, up) => Before(up)
    case InR(l, n, _, up) => Before(up) + InOrder(l) + [n]
  }

  ghost function After(x: Ctx): seq<Ref> {
    match x
    case Top => []
    case InL(n, _, r, up) => [n] + InOrder(r) + After(up)
    case InR(_, _, _, up) => After(up)
  }

  ghost function Items(x: Ctx, t: Tree): seq<Ref> { Before(x) + InOrder(t) + After(x) }

  ghost function Refs(s: seq<Ref>): set<Ref> { set n | n in s }

  ghost predicate Sorted(s: seq<Ref>) {
    forall i, j :: 0 <= i < j < |s| ==> s[i].key < s[j].key
  }

  // Open key intervals; an end may be missing.
  datatype Bound = Inf | At(k: int)
  ghost predicate Above(lo: Bound, k: int) { lo.At? ==> lo.k < k }
  ghost predicate Below(k: int, hi: Bound) { hi.At? ==> k < hi.k }

  /** A search tree with all keys strictly between lo and hi. */
  ghost predicate Ord(t: Tree, lo: Bound, hi: Bound) {
    t.Nd? ==> Above(lo, t.n.key) && Below(t.n.key, hi) && Ord(t.l, lo, At(t.n.key)) && Ord(t.r, At(t.n.key), hi)
  }

  // The key interval of the hole.
  ghost function Lo(x: Ctx): Bound {
    match x case Top => Inf case InL(_, _, _, up) => Lo(up) case InR(_, n, _, _) => At(n.key)
  }
  ghost function Hi(x: Ctx): Bound {
    match x case Top => Inf case InL(n, _, _, _) => At(n.key) case InR(_, _, _, up) => Hi(up)
  }

  ghost predicate COrd(x: Ctx) {
    match x
    case Top => true
    case InL(n, _, r, up) => Inside(Lo(up), n.key, Hi(up)) && Ord(r, At(n.key), Hi(up)) && COrd(up)
    case InR(l, n, _, up) => Inside(Lo(up), n.key, Hi(up)) && Ord(l, Lo(up), At(n.key)) && COrd(up)
  }

  ghost function Plug(x: Ctx, t: Tree): Tree {
    match x
    case Top => t
    case InL(n, c, r, up) => Plug(up, Nd(t, n, c, r))
    case InR(l, n, c, up) => Plug(up, Nd(l, n, c, t))
  }

  // The context `inner` continued by `outer` where `inner` ends.
  ghost function Append(inner: Ctx, outer: Ctx): Ctx {
    match inner
    case Top => outer
    case InL(n, c, r, up) => InL(n, c, r, Append(up, outer))
    case InR(l, n, c, up) => InR(l, n, c, Append(up, outer))
  }

  // ---- representation in memory -------------------------------------------------------------

  ghost predicate Rep(t: Tree, par: Ref, m: Memory) {
    t.Nd? ==>
      && t.n != NULL && t.n in m && m[t.n] == Cell(RootOf(t.l), RootOf(t.r), par, t.c)
      && Rep(t.l, t.n, m) && Rep(t.r, t.n, m)
  }

  ghost predicate CRep(x: Ctx, root: Ref, hole: Ref, m: Memory) {
    match x
    case Top => root == hole
    case InL(n, c, r, up) =>
      && n != NULL && n in m && m[n] == Cell(hole, RootOf(r), Parent(up), c)
      && Rep(r, n, m) && CRep(up, root, n, m)
    case InR(l, n, c, up) =>
      && n != NULL && n in m && m[n] == Cell(RootOf(l), hole, Parent(up), c)
      && Rep(l, n, m) && CRep(up, root, n, m)
  }

  /** Memory holds the ordered subtree `t` inside the context `x`, with all links in both directions. */
  ghost predicate Zip(x: Ctx, t: Tree, root: Ref, m: Memory) {
    && COrd(x) && Ord(t, Lo(x), Hi(x))
    && Rep(t, Parent(x), m) && CRep(x, root, RootOf(t), m)
  }

  // m' differs from m at most at the nodes of s
  ghost predicate Except(s: set<Ref>, m: Memory, m': Memory) {
    m.Keys == m'.Keys && forall n :: n in m && n !in s ==> m'[n] == m[n]
  }

  // ---- framing --------------------------------------------------------------------------------

  ghost predicate Inside(lo: Bound, k: int, hi: Bound) { Above(lo, k) && Below(k, hi) }

  // None of s, or all of s, carries a key between lo and hi.
  ghost predicate NoneInside(s: set<Ref>, lo: Bound, hi: Bound) {
    forall n :: n in s ==> !Inside(lo, n.key, hi)
  }
  ghost predicate AllInside(s: set<Ref>, lo: Bound, hi: Bound) {
    forall n :: n in s ==> Inside(lo, n.key, hi)
  }

  lemma {:induction false} RepFrame(t: Tree, par: Ref, lo: Bound, hi: Bound, s: set<Ref>, m: Memory, m': Memory)
    requires Rep(t, par, m) && Ord(t, lo, hi) && Except(s, m, m') && NoneInside(s, lo, hi)
    ensures Rep(t, par, m')
  {
    if t.Nd? {
      RepFrame(t.l, t.n, lo, At(t.n.key), s, m, m');
      RepFrame(t.r, t.n, At(t.n.key), hi, s, m, m');
    }
  }

  lemma {:induction false} CRepFrame(x: Ctx, root: Ref, hole: Ref, s: set<Ref>, m: Memory, m': Memory)
    requires CRep(x, root, hole, m) && COrd(x) && Except(s, m, m') && AllInside(s, Lo(x), Hi(x))
    ensures CRep(x, root, hole, m')
  {
    match x
    case Top =>
    case InL(n, c, r, up) => RepFrame(r, n, At(n.key), Hi(up), s, m, m'); CRepFrame(up, root, n, s, m, m');
    case InR(l, n, c, up) => RepFrame(l, n, Lo(up), At(n.key), s, m, m'); CRepFrame(up, root, n, s, m, m');
  }

  // The link that points at the hole now points at `hole`.
  ghost predicate Relinked(x: Ctx, hole: Ref, root: Ref, root': Ref, m: Memory, m': Memory) {
    match x
    case Top => root' == hole
    case InL(n, _, _, _) => root' == root && n in m && n in m' && m'[n] == m[n].(left := hole)
    case InR(_, n, _, _) => root' == root && n in m && n in m' && m'[n] == m[n].(right := hole)
  }

  // Another node fills the hole: only the cell above it, or the root pointer, is rewritten.
  lemma Refill(x: Ctx, root: Ref, hole: Ref, root': Ref, hole': Ref, s: set<Ref>, m: Memory, m': Memory)
    requires CRep(x, root, hole, m) && COrd(x)
    requires AllInside(s, Lo(x), Hi(x)) && Except(s + Parent1(x), m, m')
    requires Relinked(x, hole', root, root', m, m')
    ensures CRep(x, root', hole', m')
  {
    if x.InL? {
      RepFrame(x.r, x.n, At(x.n.key), Hi(x.up), s + {x.n}, m, m');
      CRepFrame(x.up, root, x.n, s + {x.n}, m, m');
    } else if x.InR? {
      RepFrame(x.l, x.n, Lo(x.up), At(x.n.key), s + {x.n}, m, m');
      CRepFrame(x.up, root, x.n, s + {x.n}, m, m');
    }
  }

  // A subtree hangs below another parent: only its root's parent field is rewritten.
  lemma Reparent(t: Tree, par: Ref, par': Ref, lo: Bound, hi: Bound, s: set<Ref>, m: Memory, m': Memory)
    requires Rep(t, par, m) && Ord(t, lo, hi)
    requires NoneInside(s, lo, hi) && Except(s + Root1(t), m, m')
    requires t.Nd? ==> t.n in m' && m'[t.n] == m[t.n].(parent := par')
    ensures Rep(t, par', m')
  {
    if t.Nd? {
      RepFrame(t.l, t.n, lo, At(t.n.key), s + {t.n}, m, m');
      RepFrame(t.r, t.n, At(t.n.key), hi, s + {t.n}, m, m');
    }
  }

  // ---- moving the focus ------------------------------------------------------------------------

  lemma FocusL(n: Ref, c: Color, r: Tree, up: Ctx, t: Tree, root: Ref, m: Memory)
    ensures Zip(InL(n, c, r, up), t, root, m) <==> Zip(up, Nd(t, n, c, r), root, m)
    ensures Items(InL(n, c, r, up), t) == Items(up, Nd(t, n, c, r))
  {
    Regroup(Before(up), InOrder(t), [n], InOrder(r), After(up));
  }

  lemma FocusR(l: Tree, n: Ref, c: Color, up: Ctx, t: Tree, root: Ref, m: Memory)
    ensures Zip(InR(l, n, c, up), t, root, m) <==> Zip(up, Nd(l, n, c, t), root, m)
    ensures Items(InR(l, n, c, up), t) == Items(up, Nd(l, n, c, t))
  {
    Regroup(Before(up), InOrder(l), [n], InOrder(t), After(up));
  }

  // One step up, whichever side the hole is on.
  ghost function PlugOne(x: Ctx, t: Tree): (r: Tree)
    requires !x.Top?
    ensures r.Nd?
  {
    if x.InL? then Nd(t, x.n, x.c, x.r) else Nd(x.l, x.n, x.c, t)
  }

  lemma Focus(x: Ctx, t: Tree, root: Ref, m: Memory)
    requires !x.Top?
    ensures Zip(x, t, root, m) <==> Zip(x.up, PlugOne(x, t), root, m)
    ensures Items(x, t) == Items(x.up, PlugOne(x, t))
  {
    if x.InL? { FocusL(x.n, x.c, x.r, x.up, t, root, m); } else { FocusR(x.l, x.n, x.c, x.up, t, root, m); }
  }

  /** Refocusing from the end of a path to its start, and back. */
  lemma {:induction false} FocusUp(path: Ctx, base: Ctx, t: Tree, root: Ref, m: Memory)
    ensures Zip(Append(path, base), t, root, m) <==> Zip(base, Plug(path, t), root, m)
    ensures Items(Append(path, base), t) == Items(base, Plug(path, t))
    decreases path
  {
    match path
    case Top =>
    case InL(n, c, r, up) =>
      FocusL(n, c, r, Append(up, base), t, root, m);
      FocusUp(up, base, Nd(t, n, c, r), root, m);
    case InR(l, n, c, up) =>
      FocusR(l, n, c, Append(up, base), t, root, m);
      FocusUp(up, base, Nd(l, n, c, t), root, m);
  }

  lemma {:induction false} AppendTop(x: Ctx)
    ensures Append(x, Top) == x
  {
    match x
    case Top =>
    case InL(n, c, r, up) => AppendTop(up);
    case InR(l, n, c, up) => AppendTop(up);
  }

  // Below a context that is not empty, the root is a cell with a key outside the hole's interval.
  lemma {:induction false} RootInCtx(x: Ctx, root: Ref, hole: Ref, m: Memory)
    requires !x.Top? && CRep(x, root, hole, m) && COrd(x)
    ensures root != NULL && root in m && !Inside(Lo(x), root.key, Hi(x))
  {
    if !x.up.Top? { RootInCtx(x.up, root, x.n, m); }
  }

  // The nodes around the focus are nodes of the whole.
  lemma RootRef(x: Ctx, t: Tree)
    requires t.Nd?
    ensures t.n in Refs(Items(x, t))
  {
    var i := |Before(x)| + |InOrder(t.l)|;
    assert Items(x, t)[i] == t.n;
  }

  lemma ParentRef(x: Ctx, t: Tree)
    ensures Parent1(x) <= Refs(Items(x, t))
  {
    if !x.Top? { Focus(x, t, NULL, map[]); RootRef(x.up, PlugOne(x, t)); }
  }

  lemma KidRefs(x: Ctx, t: Tree)
    requires t.Nd?
    ensures {t.n} + Root1(t.l) + Root1(t.r) <= Refs(Items(x, t))
  {
    RootRef(x, t);
    FocusL(t.n, t.c, t.r, x, t.l, NULL, map[]);
    if t.l.Nd? { RootRef(InL(t.n, t.c, t.r, x), t.l); }
    FocusR(t.l, t.n, t.c, x, t.r, NULL, map[]);
    if t.r.Nd? { RootRef(InR(t.l, t.n, t.c, x), t.r); }
  }

  // ---- local surgery ----------------------------------------------------------------------------

  // Key facts about the four cells that a rotation rewrites.
  lemma Outside(n: Ref, y: Ref, b: Tree, x: Ctx, lo: Bound, hi: Bound)
    requires !Inside(lo, n.key, hi) && !Inside(lo, y.key, hi) && (!x.Top? ==> !Inside(lo, x.n.key, hi))
    ensures NoneInside({n, y} + Parent1(x), lo, hi)
    ensures (b.Nd? ==> !Inside(lo, b.n.key, hi)) ==> NoneInside({n, y} + Root1(b) + Parent1(x), lo, hi)
  {}

  lemma Within(n: Ref, y: Ref, b: Tree, lo: Bound, hi: Bound)
    requires Inside(lo, n.key, hi) && Inside(lo, y.key, hi) && (b.Nd? ==> Inside(lo, b.n.key, hi))
    ensures AllInside({n, y} + Root1(b), lo, hi)
  {}

  // A rotation keeps the order of the items.
  lemma RotateOrder(a: Tree, n: Ref, cn: Color, b: Tree, y: Ref, cy: Color, c: Tree)
    ensures InOrder(Nd(a, n, cn, Nd(b, y, cy, c))) == InOrder(Nd(Nd(a, n, cn, b), y, cy, c))
  {
    Regroup(InOrder(a), [n], InOrder(b), [y], InOrder(c));
  }

  lemma Regroup(a: seq<Ref>, n: seq<Ref>, b: seq<Ref>, y: seq<Ref>, c: seq<Ref>)
    ensures a + n + (b + y + c) == (a + n + b) + y + c
    ensures a + (n + b + y) + c == a + n + (b + y + c)
    ensures a + (n + b + y) + c == (a + n + b) + y + c
  {}

  // The cells that a rotation at n touches: its child y, y's inner subtree b and the parent.
  ghost predicate Rotatable(n: Ref, x: Ctx, y: Ref, b: Tree, m: Memory) {
    && n in m && y in m && n != y && y != NULL && m[n].parent == Parent(x)
    && (b.Nd? ==> b.n in m && b.n != NULL && b.n != n && b.n != y)
    && Parent1(x) !! {n, y} + Root1(b)
    && (!x.Top? ==> x.n in m && x.n != NULL)
    && (x.InL? ==> m[x.n].left == n)
    && (x.InR? ==> m[x.n].right == n && m[x.n].left != n)
  }

  // What the rotation macros read, and that the cells they touch are distinct nodes of the tree.
  lemma RotateLeftFacts(x: Ctx, t: Tree, root: Ref, m: Memory)
    requires t.Nd? && t.r.Nd? && Zip(x, t, root, m)
    ensures Rotatable(t.n, x, t.r.n, t.r.l, m)
    ensures m[t.r.n] == Cell(RootOf(t.r.l), RootOf(t.r.r), t.n, t.r.c)
    ensures {t.n, t.r.n} + Root1(t.r.l) + Parent1(x) <= Refs(Items(x, t))
  {
    assert Rep(t.r, t.n, m) && Ord(t.r, At(t.n.key), Hi(x)) && Rep(t.r.l, t.r.n, m);
    RootInside(t.r.l, At(t.n.key), At(t.r.n.key));
    if x.InR? { RootInside(x.l, Lo(x.up), At(x.n.key)); }
    KidRefs(x, t);
    FocusR(t.l, t.n, t.c, x, t.r, root, m);
    KidRefs(InR(t.l, t.n, t.c, x), t.r);
    ParentRef(x, t);
  }

  lemma RotateRightFacts(x: Ctx, t: Tree, root: Ref, m: Memory)
    requires t.Nd? && t.l.Nd? && Zip(x, t, root, m)
    ensures Rotatable(t.n, x, t.l.n, t.l.r, m)
    ensures m[t.l.n] == Cell(RootOf(t.l.l), RootOf(t.l.r), t.n, t.l.c)
    ensures {t.n, t.l.n} + Root1(t.l.r) + Parent1(x) <= Refs(Items(x, t))
  {
    assert Rep(t.l, t.n, m) && Ord(t.l, Lo(x), At(t.n.key)) && Rep(t.l.r, t.l.n, m);
    RootInside(t.l.r, At(t.l.n.key), At(t.n.key));
    if x.InR? { RootInside(x.l, Lo(x.up), At(x.n.key)); }
    KidRefs(x, t);
    FocusL(t.n, t.c, t.r, x, t.l, root, m);
    KidRefs(InL(t.n, t.c, t.r, x), t.l);
    ParentRef(x, t);
  }

  lemma RotateLeftRep(x: Ctx, a: Tree, n: Ref, cn: Color, b: Tree, y: Ref, cy: Color, c: Tree,
                      root: Ref, root': Ref, m: Memory, m': Memory)
    requires Zip(x, Nd(a, n, cn, Nd(b, y, cy, c)), root, m)
    requires Except({n, y} + Root1(b) + Parent1(x), m, m')
    requires n in m' && m'[n] == Cell(RootOf(a), RootOf(b), y, cn)
    requires y in m' && m'[y] == Cell(n, RootOf(c), Parent(x), cy)
    requires b.Nd? ==> b.n in m && b.n in m' && m'[b.n] == m[b.n].(parent := n)
    requires Relinked(x, y, root, root', m, m')
    ensures Zip(x, Nd(Nd(a, n, cn, b), y, cy, c), root', m')
  {
    var r, s := Nd(b, y, cy, c), {n, y} + Root1(b) + Parent1(x);
    assert Rep(r, n, m) && Ord(r, At(n.key), Hi(x));
    assert Rep(b, y, m) && Ord(b, At(n.key), At(y.key));
    assert n.key < y.key;
    assert b.Nd? ==> n.key < b.n.key < y.key;
    assert !x.Top? ==> (x.InL? ==> y.key < x.n.key) && (x.InR? ==> x.n.key < n.key);
    Outside(n, y, b, x, Lo(x), At(n.key));
    RepFrame(a, n, Lo(x), At(n.key), s, m, m');
    Outside(n, y, b, x, At(y.key), Hi(x));
    RepFrame(c, y, At(y.key), Hi(x), s, m, m');
    Outside(n, y, b, x, At(n.key), At(y.key));
    Reparent(b, y, n, At(n.key), At(y.key), {n, y} + Parent1(x), m, m');
    Within(n, y, b, Lo(x), Hi(x));
    Refill(x, root, n, root', y, {n, y} + Root1(b), m, m');
    var l' := Nd(a, n, cn, b);
    assert Rep(l', y, m') && Ord(l', Lo(x), At(y.key));
  }

  lemma RotateRightRep(x: Ctx, a: Tree, y: Ref, cy: Color, b: Tree, n: Ref, cn: Color, c: Tree,
                       root: Ref, root': Ref, m: Memory, m': Memory)
    requires Zip(x, Nd(Nd(a, y, cy, b), n, cn, c), root, m)
    requires Except({n, y} + Root1(b) + Parent1(x), m, m')
    requires n in m' && m'[n] == Cell(RootOf(b), RootOf(c), y, cn)
    requires y in m' && m'[y] == Cell(RootOf(a), n, Parent(x), cy)
    requires b.Nd? ==> b.n in m && b.n in m' && m'[b.n] == m[b.n].(parent := n)
    requires Relinked(x, y, root, root', m, m')
    ensures Zip(x, Nd(a, y, cy, Nd(b, n, cn, c)), root', m')
  {
    var l, s := Nd(a, y, cy, b), {n, y} + Root1(b) + Parent1(x);
    assert Rep(l, n, m) && Ord(l, Lo(x), At(n.key));
    assert Rep(b, y, m) && Ord(b, At(y.key), At(n.key));
    assert y.key < n.key;
    assert b.Nd? ==> y.key < b.n.key < n.key;
    assert !x.Top? ==> (x.InL? ==> n.key < x.n.key) && (x.InR? ==> x.n.key < y.key);
    Outside(n, y, b, x, Lo(x), At(y.key));
    RepFrame(a, y, Lo(x), At(y.key), s, m, m');
    Outside(n, y, b, x, At(n.key), Hi(x));
    RepFrame(c, n, At(n.key), Hi(x), s, m, m');
    Outside(n, y, b, x, At(y.key), At(n.key));
    Reparent(b, y, n, At(y.key), At(n.key), {n, y} + Parent1(x), m, m');
    Within(n, y, b, Lo(x), Hi(x));
    Refill(x, root, n, root', y, {n, y} + Root1(b), m, m');
    var r' := Nd(b, n, cn, c);
    assert Rep(r', y, m') && Ord(r', At(y.key), Hi(x));
  }

  lemma PaintRep(x: Ctx, t: Tree, c: Color, root: Ref, m: Memory, m': Memory)
    requires t.Nd? && Zip(x, t, root, m)
    requires Except({t.n}, m, m') && m'[t.n] == m[t.n].(color := c)
    ensures Zip(x, t.(c := c), root, m')
  {
    RepFrame(t.l, t.n, Lo(x), At(t.n.key), {t.n}, m, m');
    RepFrame(t.r, t.n, At(t.n.key), Hi(x), {t.n}, m, m');
    CRepFrame(x, root, t.n, {t.n}, m, m');
  }

  // A node without children, with a key that fits, takes the place of an empty subtree.
  lemma AttachRep(x: Ctx, e: Ref, root: Ref, root': Ref, m: Memory, m': Memory)
    requires Zip(x, Leaf, root, m) && e != NULL && e in m && Inside(Lo(x), e.key, Hi(x))
    requires Except({e} + Parent1(x), m, m') && m'[e] == Cell(NULL, NULL, Parent(x), Red)
    requires Relinked(x, e, root, root', m, m')
    ensures Zip(x, Nd(Leaf, e, Red, Leaf), root', m')
  {
    Refill(x, root, NULL, root', e, {e}, m, m');
  }

  // A node with at most one child is cut out; the child moves up.
  lemma SpliceRep(x: Ctx, t: Tree, child: Tree, root: Ref, root': Ref, m: Memory, m': Memory)
    requires t.Nd? && Zip(x, t, root, m)
    requires (t.l.Leaf? && child == t.r) || (t.r.Leaf? && child == t.l)
    requires Except(Root1(child) + Parent1(x), m, m')
    requires child.Nd? ==> child.n in m && child.n in m' && m'[child.n] == m[child.n].(parent := Parent(x))
    requires Relinked(x, RootOf(child), root, root', m, m')
    ensures Zip(x, child, root', m')
  {
    OrdWider(child, if t.l.Leaf? then At(t.n.key) else Lo(x), if t.l.Leaf? then Hi(x) else At(t.n.key), Lo(x), Hi(x));
    Reparent(child, t.n, Parent(x), Lo(x), Hi(x), Parent1(x), m, m');
    Refill(x, root, t.n, root', RootOf(child), Root1(child), m, m');
  }

  // Node e takes over the place, the links and the colour of node t.n; its key fits there.
  ghost predicate Replaced(x: Ctx, t: Tree, e: Ref, root: Ref, root': Ref, m: Memory, m': Memory)
    requires t.Nd?
  {
    && e != NULL && e in m && t.n.key < e.key && Below(e.key, Hi(x)) && Ord(t.r, At(e.key), Hi(x))
    && Except({e} + Root1(t.l) + Root1(t.r) + Parent1(x), m, m')
    && t.n in m && m'[e] == m[t.n]
    && (t.l.Nd? ==> t.l.n in m && m'[t.l.n] == m[t.l.n].(parent := e))
    && (t.r.Nd? ==> t.r.n in m && m'[t.r.n] == m[t.r.n].(parent := e))
    && Relinked(x, e, root, root', m, m')
  }

  // The cells touched when node e takes the place of t.n are distinct.
  lemma ReplaceFacts(e: Ref, x: Ctx, t: Tree, root: Ref, m: Memory)
    requires t.Nd? && Zip(x, t, root, m) && e in m && t.n.key < e.key && Below(e.key, Hi(x))
    requires Ord(t.r, At(e.key), Hi(x))
    ensures e != t.n && e !in Root1(t.l) + Root1(t.r) + Parent1(x) && t.n !in Root1(t.l) + Root1(t.r) + Parent1(x)
    ensures Root1(t.l) !! Root1(t.r) && Parent1(x) !! Root1(t.l) + Root1(t.r)
    ensures t.l.Nd? ==> t.l.n in m && t.l.n != NULL
    ensures t.r.Nd? ==> t.r.n in m && t.r.n != NULL
    ensures x.InR? ==> RootOf(x.l) != t.n
  {
    assert Rep(t.l, t.n, m) && Ord(t.l, Lo(x), At(t.n.key)) && Rep(t.r, t.n, m);
    RootInside(t.l, Lo(x), At(t.n.key));
    RootInside(t.r, At(e.key), Hi(x));
    ParentOutside(x);
    if x.InR? { RootInside(x.l, Lo(x.up), At(x.n.key)); }
  }

  lemma ReplaceKids(x: Ctx, t: Tree, e: Ref, root: Ref, root': Ref, m: Memory, m': Memory)
    requires t.Nd? && Zip(x, t, root, m) && Replaced(x, t, e, root, root', m, m')
    ensures Rep(t.l, e, m') && Rep(t.r, e, m')
  {
    assert Rep(t.l, t.n, m) && Ord(t.l, Lo(x), At(t.n.key)) && Rep(t.r, t.n, m);
    RootInside(t.l, Lo(x), At(t.n.key));
    RootInside(t.r, At(e.key), Hi(x));
    ParentOutside(x);
    Reparent(t.l, t.n, e, Lo(x), At(t.n.key), {e} + Root1(t.r) + Parent1(x), m, m');
    Reparent(t.r, t.n, e, At(e.key), Hi(x), {e} + Root1(t.l) + Parent1(x), m, m');
  }

  lemma ReplaceRep(x: Ctx, t: Tree, e: Ref, root: Ref, root': Ref, m: Memory, m': Memory)
    requires t.Nd? && Zip(x, t, root, m) && Replaced(x, t, e, root, root', m, m')
    ensures Zip(x, Nd(t.l, e, t.c, t.r), root', m')
  {
    ReplaceKids(x, t, e, root, root', m, m');
    RootInside(t.l, Lo(x), At(t.n.key));
    RootInside(t.r, At(e.key), Hi(x));
    Refill(x, root, t.n, root', e, {e} + Root1(t.l) + Root1(t.r), m, m');
    OrdWider(t.l, Lo(x), At(t.n.key), Lo(x), At(e.key));
  }

  lemma RootInside(t: Tree, lo: Bound, hi: Bound)
    requires Ord(t, lo, hi)
    ensures AllInside(Root1(t), lo, hi)
  {}

  lemma ParentOutside(x: Ctx)
    requires COrd(x)
    ensures NoneInside(Parent1(x), Lo(x), Hi(x))
  {}

  // ---- left spines, on which a removal looks for the successor ------------------------------------

  ghost predicate LeftSpine(path: Ctx) { path.Top? || (path.InL? && LeftSpine(path.up)) }

  lemma {:induction false} LeftSpineOrd(path: Ctx, base: Ctx, t: Tree, ke: int)
    requires LeftSpine(path) && COrd(Append(path, base))
    requires Ord(t, At(ke), Hi(Append(path, base))) && Below(ke, Hi(Append(path, base)))
    ensures Ord(Plug(path, t), At(ke), Hi(base)) && Below(ke, Hi(base))
    decreases path
  {
    if path.InL? { LeftSpineOrd(path.up, base, Nd(t, path.n, path.c, path.r), ke); }
  }

  lemma {:induction false} LeftSpineItems(path: Ctx, l: Tree, n: Ref, n': Ref, c: Color, up: Ctx)
    requires LeftSpine(path)
    ensures Before(Append(path, InR(l, n, c, up))) == Before(up) + InOrder(l) + [n]
    ensures Lo(Append(path, InR(l, n, c, up))) == At(n.key)
    ensures After(Append(path, InR(l, n, c, up))) == After(Append(path, InR(l, n', c, up)))
  {
    if path.InL? { LeftSpineItems(path.up, l, n, n', c, up); }
  }

  lemma {:induction false} OrdWider(t: Tree, lo: Bound, hi: Bound, lo': Bound, hi': Bound)
    requires Ord(t, lo, hi)
    requires lo' == lo || lo'.Inf? || (lo.At? && lo'.k <= lo.k)
    requires hi' == hi || hi'.Inf? || (hi.At? && hi.k <= hi'.k)
    ensures Ord(t, lo', hi')
  {
    if t.Nd? {
      OrdWider(t.l, lo, At(t.n.key), lo', At(t.n.key));
      OrdWider(t.r, At(t.n.key), hi, At(t.n.key), hi');
    }
  }
}
