/** The top-down splay tree of src/include/tree.h.

    While it works down from the root, a splay takes the tree apart into three: the tree still to be
    searched, a tree of smaller nodes whose right spine is open at its lower end, and a tree of larger nodes
    whose left spine is open. A local node, here HEADER, holds the two outer trees. Trees and key
    bounds are those of TreeShape; splay nodes have no colour, so all are drawn black, and no parent. */
module SplayTree {
  import opened TreeShape

  datatype SCell = SCell(left: Ref, right: Ref)
  type SMem = map<Ref, SCell>

  // The local node of the splay; no node of a tree has address 0.
  const HEADER := Ref(0, 1)

  ghost function Node(l: Tree, n: Ref, r: Tree): Tree { Nd(l, n, Black, r) }

  ghost predicate Links(t: Tree, m: SMem) {
    t.Nd? ==>
      && t.n.addr != 0 && t.c.Black? && t.n in m && m[t.n] == SCell(RootOf(t.l), RootOf(t.r))
      && Links(t.l, m) && Links(t.r, m)
  }

  /** The open spine of one of the outer trees, innermost node first: each node with the subtree on its far
      side. Of the left tree these are the left subtrees, of the right tree the right ones. */
  datatype Spine = End | Frame(n: Ref, t: Tree, up: Spine)

  ghost function Tip(x: Spine): Ref { if x.End? then HEADER else x.n }
  ghost function TipKey(x: Spine): Bound { if x.End? then Inf else At(x.n.key) }

  // ---- the left tree ----------------------------------------------------------------------------------------

  ghost function LItems(x: Spine): seq<Ref> { if x.End? then [] else LItems(x.up) + InOrder(x.t) + [x.n] }

  ghost predicate LOrd(x: Spine) {
    x.Frame? ==> Above(TipKey(x.up), x.n.key) && Ord(x.t, TipKey(x.up), At(x.n.key)) && LOrd(x.up)
  }

  // The spine is linked down to its tip, whose right link leads to hole.
  ghost predicate LLinks(x: Spine, hole: Ref, m: SMem) {
    if x.End? then HEADER in m && m[HEADER].right == hole
    else
      && x.n.addr != 0 && x.n in m && m[x.n] == SCell(RootOf(x.t), hole)
      && Links(x.t, m) && LLinks(x.up, x.n, m)
  }

  // The same, with the right link of the tip not set yet.
  ghost predicate LOpen(x: Spine, m: SMem) {
    if x.End? then HEADER in m
    else
      && x.n.addr != 0 && x.n in m && m[x.n].left == RootOf(x.t)
      && Links(x.t, m) && LLinks(x.up, x.n, m)
  }

  ghost function LPlug(x: Spine, t: Tree): Tree { if x.End? then t else LPlug(x.up, Node(x.t, x.n, t)) }

  // ---- the right tree ---------------------------------------------------------------------------------------

  ghost function RItems(x: Spine): seq<Ref> { if x.End? then [] else [x.n] + InOrder(x.t) + RItems(x.up) }

  ghost predicate ROrd(x: Spine) {
    x.Frame? ==> Below(x.n.key, TipKey(x.up)) && Ord(x.t, At(x.n.key), TipKey(x.up)) && ROrd(x.up)
  }

  ghost predicate RLinks(x: Spine, hole: Ref, m: SMem) {
    if x.End? then HEADER in m && m[HEADER].left == hole
    else
      && x.n.addr != 0 && x.n in m && m[x.n] == SCell(hole, RootOf(x.t))
      && Links(x.t, m) && RLinks(x.up, x.n, m)
  }

  ghost predicate ROpen(x: Spine, m: SMem) {
    if x.End? then HEADER in m
    else
      && x.n.addr != 0 && x.n in m && m[x.n].right == RootOf(x.t)
      && Links(x.t, m) && RLinks(x.up, x.n, m)
  }

  ghost function RPlug(x: Spine, t: Tree): Tree { if x.End? then t else RPlug(x.up, Node(t, x.n, x.t)) }

  // ---- writing one cell -------------------------------------------------------------------------------------

  lemma {:induction false} LinksFrame(t: Tree, lo: Bound, hi: Bound, m: SMem, n: Ref, c: SCell)
    requires Links(t, m) && Ord(t, lo, hi) && (n.addr == 0 || !Inside(lo, n.key, hi))
    ensures Links(t, m[n := c])
  {
    if t.Nd? {
      LinksFrame(t.l, lo, At(t.n.key), m, n, c);
      LinksFrame(t.r, At(t.n.key), hi, m, n, c);
    }
  }

  // A node beyond the left tree, or the left link of HEADER.
  lemma {:induction false} LLinksFrame(x: Spine, hole: Ref, m: SMem, n: Ref, c: SCell)
    requires LLinks(x, hole, m) && LOrd(x)
    requires if n.addr == 0 then n == HEADER && n in m && c.right == m[n].right else Above(TipKey(x), n.key)
    ensures LLinks(x, hole, m[n := c])
  {
    if x.Frame? {
      LinksFrame(x.t, TipKey(x.up), At(x.n.key), m, n, c);
      LLinksFrame(x.up, x.n, m, n, c);
    }
  }

  lemma LOpenFrame(x: Spine, m: SMem, n: Ref, c: SCell)
    requires LOpen(x, m) && LOrd(x)
    requires if n.addr == 0 then n == HEADER && n in m && c.right == m[n].right else Above(TipKey(x), n.key)
    ensures LOpen(x, m[n := c])
  {
    if x.Frame? {
      LinksFrame(x.t, TipKey(x.up), At(x.n.key), m, n, c);
      LLinksFrame(x.up, x.n, m, n, c);
    }
  }

  // Setting the right link of the tip closes the spine.
  lemma LClose(x: Spine, hole: Ref, m: SMem)
    requires LOpen(x, m) && LOrd(x)
    ensures Tip(x) in m && LLinks(x, hole, m[Tip(x) := m[Tip(x)].(right := hole)])
  {
    if x.Frame? {
      var c := m[x.n].(right := hole);
      LinksFrame(x.t, TipKey(x.up), At(x.n.key), m, x.n, c);
      LLinksFrame(x.up, x.n, m, x.n, c);
    }
  }

  lemma {:induction false} RLinksFrame(x: Spine, hole: Ref, m: SMem, n: Ref, c: SCell)
    requires RLinks(x, hole, m) && ROrd(x)
    requires if n.addr == 0 then n == HEADER && n in m && c.left == m[n].left else Below(n.key, TipKey(x))
    ensures RLinks(x, hole, m[n := c])
  {
    if x.Frame? {
      LinksFrame(x.t, At(x.n.key), TipKey(x.up), m, n, c);
      RLinksFrame(x.up, x.n, m, n, c);
    }
  }

  lemma ROpenFrame(x: Spine, m: SMem, n: Ref, c: SCell)
    requires ROpen(x, m) && ROrd(x)
    requires if n.addr == 0 then n == HEADER && n in m && c.left == m[n].left else Below(n.key, TipKey(x))
    ensures ROpen(x, m[n := c])
  {
    if x.Frame? {
      LinksFrame(x.t, At(x.n.key), TipKey(x.up), m, n, c);
      RLinksFrame(x.up, x.n, m, n, c);
    }
  }

  lemma RClose(x: Spine, hole: Ref, m: SMem)
    requires ROpen(x, m) && ROrd(x)
    ensures Tip(x) in m && RLinks(x, hole, m[Tip(x) := m[Tip(x)].(left := hole)])
  {
    if x.Frame? {
      var c := m[x.n].(left := hole);
      LinksFrame(x.t, At(x.n.key), TipKey(x.up), m, x.n, c);
      RLinksFrame(x.up, x.n, m, x.n, c);
    }
  }

  // ---- putting the tree together ------------------------------------------------------------------------------

  lemma {:induction false} LPlugged(x: Spine, t: Tree, m: SMem)
    requires LLinks(x, RootOf(t), m) && Links(t, m)
    ensures HEADER in m && Links(LPlug(x, t), m) && m[HEADER].right == RootOf(LPlug(x, t))
  {
    if x.Frame? { LPlugged(x.up, Node(x.t, x.n, t), m); }
  }

  lemma {:induction false} RPlugged(x: Spine, t: Tree, m: SMem)
    requires RLinks(x, RootOf(t), m) && Links(t, m)
    ensures HEADER in m && Links(RPlug(x, t), m) && m[HEADER].left == RootOf(RPlug(x, t))
  {
    if x.Frame? { RPlugged(x.up, Node(t, x.n, x.t), m); }
  }

  lemma {:induction false} LPlugOrd(x: Spine, t: Tree, hi: Bound)
    requires LOrd(x) && Ord(t, TipKey(x), hi) && (x.Frame? ==> Below(x.n.key, hi))
    ensures Ord(LPlug(x, t), Inf, hi) && InOrder(LPlug(x, t)) == LItems(x) + InOrder(t)
  {
    if x.Frame? {
      assert x.up.Frame? ==> Below(x.up.n.key, hi);
      LPlugOrd(x.up, Node(x.t, x.n, t), hi);
    }
  }

  lemma {:induction false} RPlugOrd(x: Spine, t: Tree, lo: Bound)
    requires ROrd(x) && Ord(t, lo, TipKey(x)) && (x.Frame? ==> Above(lo, x.n.key))
    ensures Ord(RPlug(x, t), lo, Inf) && InOrder(RPlug(x, t)) == InOrder(t) + RItems(x)
  {
    if x.Frame? {
      assert x.up.Frame? ==> Above(lo, x.up.n.key);
      RPlugOrd(x.up, Node(t, x.n, x.t), lo);
    }
  }

  // ---- what is written ----------------------------------------------------------------------------------------

  ghost predicate Only(s: set<Ref>, m: SMem, m': SMem) {
    forall n :: n !in s ==> (n in m' <==> n in m) && (n in m ==> m'[n] == m[n])
  }

  lemma OnlyMore(s: set<Ref>, s': set<Ref>, m: SMem, m': SMem)
    requires Only(s, m, m') && s <= s'
    ensures Only(s', m, m')
  {}

  lemma OnlyBoth(s: set<Ref>, m: SMem, m': SMem, m'': SMem)
    requires Only(s, m, m') && Only(s, m', m'')
    ensures Only(s, m, m'')
  {}

  // ---- the tree taken apart ---------------------------------------------------------------------------------

  /** Memory holds the left tree, the tree still to be searched and the right tree, in key order, and k lies
      between the two outer ones. */
  ghost predicate Apart(x: Spine, t: Tree, y: Spine, k: int, m: SMem) {
    && LOrd(x) && ROrd(y) && Inside(TipKey(x), k, TipKey(y))
    && t.Nd? && Ord(t, TipKey(x), TipKey(y))
    && Links(t, m) && LOpen(x, m) && ROpen(y, m)
  }

  ghost function AllItems(x: Spine, t: Tree, y: Spine): seq<Ref> { LItems(x) + InOrder(t) + RItems(y) }

  lemma RotateRightOk(x: Spine, t: Tree, y: Spine, k: int, m: SMem)
    requires Apart(x, t, y, k, m) && t.l.Nd?
    ensures t.n in m && t.l.n in m && t.n != t.l.n
    ensures var m1 := m[t.n := m[t.n].(left := m[t.l.n].right)];
            var m2 := m1[t.l.n := m1[t.l.n].(right := t.n)];
            var t' := Node(t.l.l, t.l.n, Node(t.l.r, t.n, t.r));
            Apart(x, t', y, k, m2) && AllItems(x, t', y) == AllItems(x, t, y)
  {
    var p, q := t.l.n, t.n;
    var c := SCell(RootOf(t.l.r), RootOf(t.r));
    var m1 := m[q := c];
    var lo, hi := TipKey(x), TipKey(y);
    assert Links(t.l, m) && Links(t.r, m) && Ord(t.l, lo, At(q.key)) && Ord(t.r, At(q.key), hi);
    LOpenFrame(x, m, q, c);
    ROpenFrame(y, m, q, c);
    LinksFrame(t.l, lo, At(q.key), m, q, c);
    LinksFrame(t.r, At(q.key), hi, m, q, c);
    var d := SCell(RootOf(t.l.l), q);
    LOpenFrame(x, m1, p, d);
    ROpenFrame(y, m1, p, d);
    LinksFrame(t.l.l, lo, At(p.key), m1, p, d);
    LinksFrame(t.l.r, At(p.key), At(q.key), m1, p, d);
    LinksFrame(t.r, At(q.key), hi, m1, p, d);
    assert Links(Node(t.l.r, q, t.r), m1[p := d]);
    RotateOrder(t.l.l, p, Black, t.l.r, q, Black, t.r);
  }

  lemma RotateLeftOk(x: Spine, t: Tree, y: Spine, k: int, m: SMem)
    requires Apart(x, t, y, k, m) && t.r.Nd?
    ensures t.n in m && t.r.n in m && t.n != t.r.n
    ensures var m1 := m[t.n := m[t.n].(right := m[t.r.n].left)];
            var m2 := m1[t.r.n := m1[t.r.n].(left := t.n)];
            var t' := Node(Node(t.l, t.n, t.r.l), t.r.n, t.r.r);
            Apart(x, t', y, k, m2) && AllItems(x, t', y) == AllItems(x, t, y)
  {
    var p, q := t.r.n, t.n;
    var c := SCell(RootOf(t.l), RootOf(t.r.l));
    var m1 := m[q := c];
    var lo, hi := TipKey(x), TipKey(y);
    assert Links(t.l, m) && Links(t.r, m) && Ord(t.l, lo, At(q.key)) && Ord(t.r, At(q.key), hi);
    LOpenFrame(x, m, q, c);
    ROpenFrame(y, m, q, c);
    LinksFrame(t.l, lo, At(q.key), m, q, c);
    LinksFrame(t.r, At(q.key), hi, m, q, c);
    var d := SCell(q, RootOf(t.r.r));
    LOpenFrame(x, m1, p, d);
    ROpenFrame(y, m1, p, d);
    LinksFrame(t.r.r, At(p.key), hi, m1, p, d);
    LinksFrame(t.r.l, At(q.key), At(p.key), m1, p, d);
    LinksFrame(t.l, lo, At(q.key), m1, p, d);
    assert Links(Node(t.l, q, t.r.l), m1[p := d]);
    RotateOrder(t.l, q, Black, t.r.l, p, Black, t.r.r);
  }

  lemma LinkItems(x: Spine, t: Tree, y: Spine)
    requires t.Nd?
    ensures AllItems(x, t.l, Frame(t.n, t.r, y)) == AllItems(x, t, y)
    ensures AllItems(Frame(t.n, t.l, x), t.r, y) == AllItems(x, t, y)
  {}

  lemma LinkLeftOk(x: Spine, t: Tree, y: Spine, k: int, m: SMem)
    requires Apart(x, t, y, k, m) && t.l.Nd? && k < t.n.key
    ensures Tip(y) in m
    ensures var y' := Frame(t.n, t.r, y);
            Apart(x, t.l, y', k, m[Tip(y) := m[Tip(y)].(left := t.n)]) && AllItems(x, t.l, y') == AllItems(x, t, y)
  {
    var n := Tip(y);
    var c := m[n].(left := t.n);
    assert Links(t.l, m) && Links(t.r, m) && Ord(t.l, TipKey(x), At(t.n.key)) && Ord(t.r, At(t.n.key), TipKey(y));
    LinkItems(x, t, y);
    RClose(y, t.n, m);
    LOpenFrame(x, m, n, c);
    LinksFrame(t.l, TipKey(x), At(t.n.key), m, n, c);
    LinksFrame(t.r, At(t.n.key), TipKey(y), m, n, c);
  }

  lemma LinkRightOk(x: Spine, t: Tree, y: Spine, k: int, m: SMem)
    requires Apart(x, t, y, k, m) && t.r.Nd? && k > t.n.key
    ensures Tip(x) in m
    ensures var x' := Frame(t.n, t.l, x);
            Apart(x', t.r, y, k, m[Tip(x) := m[Tip(x)].(right := t.n)]) && AllItems(x', t.r, y) == AllItems(x, t, y)
  {
    var n := Tip(x);
    var c := m[n].(right := t.n);
    assert Links(t.l, m) && Links(t.r, m) && Ord(t.l, TipKey(x), At(t.n.key)) && Ord(t.r, At(t.n.key), TipKey(y));
    LinkItems(x, t, y);
    LClose(x, t.n, m);
    ROpenFrame(y, m, n, c);
    LinksFrame(t.l, TipKey(x), At(t.n.key), m, n, c);
    LinksFrame(t.r, At(t.n.key), TipKey(y), m, n, c);
  }

  // The first two assignments of SPLAY_ASSEMBLE close both outer trees ...
  lemma CloseBoth(x: Spine, t: Tree, y: Spine, k: int, m: SMem)
    requires Apart(x, t, y, k, m)
    ensures Tip(x) in m && Tip(y) in m
    ensures var m1 := m[Tip(x) := m[Tip(x)].(right := RootOf(t.l))];
            var m2 := m1[Tip(y) := m1[Tip(y)].(left := RootOf(t.r))];
            LLinks(x, RootOf(t.l), m2) && RLinks(y, RootOf(t.r), m2) && Links(t, m2)
  {
    var lo, hi := TipKey(x), TipKey(y);
    var c := m[Tip(x)].(right := RootOf(t.l));
    var m1 := m[Tip(x) := c];
    LClose(x, RootOf(t.l), m);
    ROpenFrame(y, m, Tip(x), c);
    LinksFrame(t, lo, hi, m, Tip(x), c);
    var d := m1[Tip(y)].(left := RootOf(t.r));
    RClose(y, RootOf(t.r), m1);
    LLinksFrame(x, RootOf(t.l), m1, Tip(y), d);
    LinksFrame(t, lo, hi, m1, Tip(y), d);
  }

  lemma HangItems(x: Spine, t: Tree, y: Spine)
    requires LOrd(x) && ROrd(y) && t.Nd? && Ord(t, TipKey(x), TipKey(y))
    ensures var t' := Node(LPlug(x, t.l), t.n, RPlug(y, t.r));
            Ord(t', Inf, Inf) && InOrder(t') == AllItems(x, t, y)
  {
    LPlugOrd(x, t.l, At(t.n.key));
    RPlugOrd(y, t.r, At(t.n.key));
    HangOrder(LItems(x), InOrder(t.l), t.n, InOrder(t.r), RItems(y));
  }

  lemma HangOrder(a: seq<Ref>, b: seq<Ref>, n: Ref, c: seq<Ref>, d: seq<Ref>)
    ensures (a + b) + [n] + (c + d) == a + (b + [n] + c) + d
  {}

  // ... and the last two hang them under the root.
  lemma HangBoth(x: Spine, t: Tree, y: Spine, m: SMem)
    requires LOrd(x) && ROrd(y) && t.Nd? && Ord(t, TipKey(x), TipKey(y))
    requires LLinks(x, RootOf(t.l), m) && RLinks(y, RootOf(t.r), m) && Links(t, m)
    ensures HEADER in m && t.n in m
    ensures var t' := Node(LPlug(x, t.l), t.n, RPlug(y, t.r));
            && Links(t', m[t.n := SCell(m[HEADER].right, m[HEADER].left)]) && Ord(t', Inf, Inf)
            && InOrder(t') == AllItems(x, t, y)
  {
    var l, r := LPlug(x, t.l), RPlug(y, t.r);
    LPlugged(x, t.l, m);
    RPlugged(y, t.r, m);
    HangItems(x, t, y);
    var c := SCell(m[HEADER].right, m[HEADER].left);
    LinksFrame(l, Inf, At(t.n.key), m, t.n, c);
    LinksFrame(r, At(t.n.key), Inf, m, t.n, c);
  }

  // ---- what a splay brings about ------------------------------------------------------------------------------

  /** The root of t has the key k, or it is the next node above or below k: nothing lies between. */
  ghost predicate Parted(t: Tree, k: int) {
    && t.Nd?
    && (k < t.n.key ==> Ord(t.l, Inf, At(k)))
    && (k > t.n.key ==> Ord(t.r, At(k), Inf))
  }

  ghost predicate Stopped(t: Tree, k: int) {
    t.Nd? && (k < t.n.key ==> t.l.Leaf?) && (k > t.n.key ==> t.r.Leaf?)
  }

  lemma StoppedParted(x: Spine, t: Tree, y: Spine, k: int, m: SMem)
    requires Apart(x, t, y, k, m) && Stopped(t, k)
    ensures Parted(Node(LPlug(x, t.l), t.n, RPlug(y, t.r)), k)
  {
    if k < t.n.key { LPlugOrd(x, t.l, At(k)); }
    if k > t.n.key { RPlugOrd(y, t.r, At(k)); }
  }

  lemma {:induction false} ItemInside(t: Tree, lo: Bound, hi: Bound, e: Ref)
    requires Ord(t, lo, hi) && e in InOrder(t)
    ensures Inside(lo, e.key, hi)
  {
    if e in InOrder(t.l) {
      ItemInside(t.l, lo, At(t.n.key), e);
    } else if e != t.n {
      ItemInside(t.r, At(t.n.key), hi, e);
    }
  }

  /** The root after a splay for k: every item is on the same side of k and of the root's key, except the
      root itself, which is the item with key k if there is one. */
  lemma PartedItems(t: Tree, k: int, e: Ref)
    requires Parted(t, k) && Ord(t, Inf, Inf) && e in InOrder(t)
    ensures !(k <= e.key < t.n.key) && !(t.n.key < e.key <= k)
    ensures e.key == k <==> e == t.n && t.n.key == k
  {
    if e in InOrder(t.l) {
      ItemInside(t.l, Inf, At(t.n.key), e);
      if k < t.n.key { ItemInside(t.l, Inf, At(k), e); }
    } else if e in InOrder(t.r) {
      ItemInside(t.r, At(t.n.key), Inf, e);
      if k > t.n.key { ItemInside(t.r, At(k), Inf, e); }
    }
  }

  lemma PartedHas(t: Tree, k: int)
    requires Parted(t, k) && Ord(t, Inf, Inf)
    ensures HasKey(InOrder(t), k) <==> t.n.key == k
  {
    assert t.n in InOrder(t);
    if HasKey(InOrder(t), k) {
      var e :| e in InOrder(t) && e.key == k;
      PartedItems(t, k, e);
    }
  }

  // ---- inserting and removing at the root ---------------------------------------------------------------------

  lemma InsertBelow(t: Tree, e: Ref, m: SMem)
    requires Parted(t, e.key) && e.key < t.n.key && Ord(t, Inf, Inf) && Links(t, m) && e.addr != 0
    ensures var m1 := m[e := SCell(m[t.n].left, t.n)];
            var t' := Node(t.l, e, Node(Leaf, t.n, t.r));
            && t.n in m1 && Links(t', m1[t.n := m1[t.n].(left := NULL)]) && Ord(t', Inf, Inf)
            && InOrder(t') == InOrder(t.l) + [e] + ([t.n] + InOrder(t.r))
  {
    var c, d := SCell(m[t.n].left, t.n), SCell(NULL, RootOf(t.r));
    var m1 := m[e := c];
    LinksFrame(t.l, Inf, At(e.key), m, e, c);
    LinksFrame(t.r, At(t.n.key), Inf, m, e, c);
    LinksFrame(t.l, Inf, At(e.key), m1, t.n, d);
    LinksFrame(t.r, At(t.n.key), Inf, m1, t.n, d);
    assert Links(Node(Leaf, t.n, t.r), m1[t.n := d]);
    assert InOrder(Node(Leaf, t.n, t.r)) == [t.n] + InOrder(t.r);
  }

  lemma InsertAbove(t: Tree, e: Ref, m: SMem)
    requires Parted(t, e.key) && e.key > t.n.key && Ord(t, Inf, Inf) && Links(t, m) && e.addr != 0
    ensures var m1 := m[e := SCell(t.n, m[t.n].right)];
            var t' := Node(Node(t.l, t.n, Leaf), e, t.r);
            && t.n in m1 && Links(t', m1[t.n := m1[t.n].(right := NULL)]) && Ord(t', Inf, Inf)
            && InOrder(t') == InOrder(t.l) + [t.n] + [e] + InOrder(t.r)
  {
    var c, d := SCell(t.n, m[t.n].right), SCell(RootOf(t.l), NULL);
    var m1 := m[e := c];
    LinksFrame(t.r, At(e.key), Inf, m, e, c);
    LinksFrame(t.l, Inf, At(t.n.key), m, e, c);
    LinksFrame(t.r, At(e.key), Inf, m1, t.n, d);
    LinksFrame(t.l, Inf, At(t.n.key), m1, t.n, d);
    assert Links(Node(t.l, t.n, Leaf), m1[t.n := d]);
    assert InOrder(Node(t.l, t.n, Leaf)) == InOrder(t.l) + [t.n];
  }

  lemma {:induction false} LinksOnly(t: Tree, lo: Bound, hi: Bound, s: set<Ref>, m: SMem, m': SMem)
    requires Links(t, m) && Ord(t, lo, hi) && Only(s, m, m')
    requires forall n :: n in s ==> n.addr == 0 || !Inside(lo, n.key, hi)
    ensures Links(t, m')
  {
    if t.Nd? {
      LinksOnly(t.l, lo, At(t.n.key), s, m, m');
      LinksOnly(t.r, At(t.n.key), hi, s, m, m');
    }
  }

  // A tree of keys below k that has been splayed for k has its greatest node at the root.
  lemma GreatestAtRoot(t: Tree, k: int)
    requires Parted(t, k) && Ord(t, Inf, At(k))
    ensures t.r.Leaf?
  {}

  lemma {:induction false} TightOrd(t: Tree, lo: Bound, hi: Bound, hi': Bound)
    requires Ord(t, lo, hi) && forall e :: e in InOrder(t) ==> Below(e.key, hi')
    ensures Ord(t, lo, hi')
  {
    if t.Nd? {
      assert t.n in InOrder(t);
      forall e | e in InOrder(t.r) ensures Below(e.key, hi') { assert e in InOrder(t); }
      TightOrd(t.r, At(t.n.key), hi, hi');
    }
  }

  lemma Joined(s: Tree, r: Tree, k: int, m: SMem)
    requires s.Nd? && s.r.Leaf? && Ord(s, Inf, At(k)) && Ord(r, At(k), Inf) && Links(s, m) && Links(r, m)
    ensures var t := Node(s.l, s.n, r);
            && Links(t, m[s.n := SCell(RootOf(s.l), RootOf(r))]) && Ord(t, Inf, Inf)
            && InOrder(t) == InOrder(s) + InOrder(r)
  {
    var c := SCell(RootOf(s.l), RootOf(r));
    LinksFrame(s.l, Inf, At(s.n.key), m, s.n, c);
    LinksFrame(r, At(k), Inf, m, s.n, c);
    OrdWider(r, At(k), Inf, At(s.n.key), Inf);
    assert InOrder(s) == InOrder(s.l) + [s.n];
  }

  class Splay {
    var root: Ref
    var mem: SMem
    ghost var tree: Tree

    /** Memory holds a search tree with the given root. */
    ghost predicate Valid()
      reads this
    {
      root == RootOf(tree) && Links(tree, mem) && Ord(tree, Inf, Inf)
    }

    ghost function Contents(): seq<Ref>
      reads this
    {
      InOrder(tree)
    }

    constructor ()
      ensures Valid() && Contents() == []
    {
      root, mem, tree := NULL, map[], Leaf;
    }

    method RotateRight(tmp: Ref, ghost x: Spine, ghost t: Tree, ghost y: Spine, ghost k: int)
      requires Apart(x, t, y, k, mem) && t.l.Nd? && root == t.n && tmp == t.l.n
      modifies this`root, this`mem
      ensures var t' := Node(t.l.l, t.l.n, Node(t.l.r, t.n, t.r));
              Apart(x, t', y, k, mem) && AllItems(x, t', y) == AllItems(x, t, y) && root == t'.n
      ensures Only({t.n, t.l.n}, old(mem), mem)
    {
      RotateRightOk(x, t, y, k, mem);
      mem := mem[root := mem[root].(left := mem[tmp].right)];
      mem := mem[tmp := mem[tmp].(right := root)];
      root := tmp;
    }

    method RotateLeft(tmp: Ref, ghost x: Spine, ghost t: Tree, ghost y: Spine, ghost k: int)
      requires Apart(x, t, y, k, mem) && t.r.Nd? && root == t.n && tmp == t.r.n
      modifies this`root, this`mem
      ensures var t' := Node(Node(t.l, t.n, t.r.l), t.r.n, t.r.r);
              Apart(x, t', y, k, mem) && AllItems(x, t', y) == AllItems(x, t, y) && root == t'.n
      ensures Only({t.n, t.r.n}, old(mem), mem)
    {
      RotateLeftOk(x, t, y, k, mem);
      mem := mem[root := mem[root].(right := mem[tmp].left)];
      mem := mem[tmp := mem[tmp].(left := root)];
      root := tmp;
    }

    method LinkLeft(right: Ref, ghost x: Spine, ghost t: Tree, ghost y: Spine, ghost k: int) returns (right': Ref)
      requires Apart(x, t, y, k, mem) && t.l.Nd? && k < t.n.key && root == t.n && right == Tip(y)
      modifies this`root, this`mem
      ensures var y' := Frame(t.n, t.r, y);
              && Apart(x, t.l, y', k, mem) && AllItems(x, t.l, y') == AllItems(x, t, y)
              && root == t.l.n && right' == Tip(y')
      ensures Only({Tip(y)}, old(mem), mem)
    {
      LinkLeftOk(x, t, y, k, mem);
      mem := mem[right := mem[right].(left := root)];
      right' := root;
      assert Links(t, old(mem)) && old(mem)[t.n].left == t.l.n;
      root := mem[root].left;
    }

    method LinkRight(left: Ref, ghost x: Spine, ghost t: Tree, ghost y: Spine, ghost k: int) returns (left': Ref)
      requires Apart(x, t, y, k, mem) && t.r.Nd? && k > t.n.key && root == t.n && left == Tip(x)
      modifies this`root, this`mem
      ensures var x' := Frame(t.n, t.l, x);
              && Apart(x', t.r, y, k, mem) && AllItems(x', t.r, y) == AllItems(x, t, y)
              && root == t.r.n && left' == Tip(x')
      ensures Only({Tip(x)}, old(mem), mem)
    {
      LinkRightOk(x, t, y, k, mem);
      mem := mem[left := mem[left].(right := root)];
      left' := root;
      assert Links(t, old(mem)) && old(mem)[t.n].right == t.r.n;
      root := mem[root].right;
    }

    method Assemble(left: Ref, right: Ref, ghost x: Spine, ghost t: Tree, ghost y: Spine, ghost k: int)
      requires Apart(x, t, y, k, mem) && root == t.n && left == Tip(x) && right == Tip(y) && Stopped(t, k)
      modifies this`mem, this`tree
      ensures Valid() && Contents() == AllItems(x, t, y) && Parted(tree, k)
      ensures Only({Tip(x), Tip(y), t.n}, old(mem), mem)
    {
      CloseBoth(x, t, y, k, mem);
      assert mem[root] == SCell(RootOf(t.l), RootOf(t.r));
      mem := mem[left := mem[left].(right := mem[root].left)];
      assert left != root;
      mem := mem[right := mem[right].(left := mem[root].right)];
      HangBoth(x, t, y, mem);
      StoppedParted(x, t, y, k, old(mem));
      ghost var m := mem;
      mem := mem[root := mem[root].(left := mem[HEADER].right)];
      mem := mem[root := mem[root].(right := mem[HEADER].left)];
      assert mem == m[t.n := SCell(m[HEADER].right, m[HEADER].left)];
      tree := Node(LPlug(x, t.l), t.n, RPlug(y, t.r));
    }

    lemma TipIn(x: Spine, t: Tree, y: Spine)
      requires t.Nd?
      ensures t.n in AllItems(x, t, y)
      ensures x.Frame? ==> x.n in AllItems(x, t, y)
      ensures y.Frame? ==> y.n in AllItems(x, t, y)
      ensures t.l.Nd? ==> t.l.n in AllItems(x, t, y)
      ensures t.r.Nd? ==> t.r.n in AllItems(x, t, y)
    {
      if x.Frame? { assert x.n in LItems(x); }
      if y.Frame? { assert y.n in RItems(y); }
      assert t.l.Nd? ==> t.l.n in InOrder(t.l);
      assert t.r.Nd? ==> t.r.n in InOrder(t.r);
    }

    // One turn of the loop with k below the root's key: `stop` is the break out of the loop.
    method TurnLeft(k: int, right: Ref, ghost x: Spine, ghost t: Tree, ghost y: Spine)
      returns (right': Ref, stop: bool, ghost t': Tree, ghost y': Spine)
      requires Apart(x, t, y, k, mem) && root == t.n && right == Tip(y) && k < t.n.key
      modifies this`root, this`mem
      ensures Apart(x, t', y', k, mem) && root == t'.n && right' == Tip(y') && AllItems(x, t', y') == AllItems(x, t, y)
      ensures stop ==> Stopped(t', k)
      ensures !stop ==> t' < t
      ensures Only(Refs(AllItems(x, t, y)) + {HEADER}, old(mem), mem)
    {
      TipIn(x, t, y);
      ghost var all := Refs(AllItems(x, t, y)) + {HEADER};
      right', stop, t', y' := right, false, t, y;
      assert mem[root].left == RootOf(t.l) && Links(t.l, mem);
      var tmp := mem[root].left;
      if tmp == NULL { return right, true, t, y; }
      if k < tmp.key {
        RotateRight(tmp, x, t, y, k);
        OnlyMore({t.n, t.l.n}, all, old(mem), mem);
        t' := Node(t.l.l, t.l.n, Node(t.l.r, t.n, t.r));
        assert mem[root].left == RootOf(t'.l) && Links(t'.l, mem);
        if mem[root].left == NULL { return right, true, t', y; }
      }
      ghost var before := mem;
      right' := LinkLeft(right, x, t', y, k);
      OnlyMore({Tip(y)}, all, before, mem);
      OnlyBoth(all, old(mem), before, mem);
      y' := Frame(t'.n, t'.r, y);
      t' := t'.l;
    }

    method TurnRight(k: int, left: Ref, ghost x: Spine, ghost t: Tree, ghost y: Spine)
      returns (left': Ref, stop: bool, ghost x': Spine, ghost t': Tree)
      requires Apart(x, t, y, k, mem) && root == t.n && left == Tip(x) && k > t.n.key
      modifies this`root, this`mem
      ensures Apart(x', t', y, k, mem) && root == t'.n && left' == Tip(x') && AllItems(x', t', y) == AllItems(x, t, y)
      ensures stop ==> Stopped(t', k)
      ensures !stop ==> t' < t
      ensures Only(Refs(AllItems(x, t, y)) + {HEADER}, old(mem), mem)
    {
      TipIn(x, t, y);
      ghost var all := Refs(AllItems(x, t, y)) + {HEADER};
      left', stop, x', t' := left, false, x, t;
      assert mem[root].right == RootOf(t.r) && Links(t.r, mem);
      var tmp := mem[root].right;
      if tmp == NULL { return left, true, x, t; }
      if k > tmp.key {
        RotateLeft(tmp, x, t, y, k);
        OnlyMore({t.n, t.r.n}, all, old(mem), mem);
        t' := Node(Node(t.l, t.n, t.r.l), t.r.n, t.r.r);
        assert mem[root].right == RootOf(t'.r) && Links(t'.r, mem);
        if mem[root].right == NULL { return left, true, x, t'; }
      }
      ghost var before := mem;
      left' := LinkRight(left, x, t', y, k);
      OnlyMore({Tip(x)}, all, before, mem);
      OnlyBoth(all, old(mem), before, mem);
      x' := Frame(t'.n, t'.l, x);
      t' := t'.r;
    }

    /** SPLAY: terminates, keeps the in-order sequence and brings the node with key k, or a neighbour of k, to
        the root. Only the tree's own nodes are written. */
    method Splay(k: int)
      requires Valid() && root != NULL
      modifies this
      ensures Valid() && Contents() == old(Contents()) && Parted(tree, k)
      ensures Only(Refs(Contents()) + {HEADER}, old(mem), mem)
    {
      LinksFrame(tree, Inf, Inf, mem, HEADER, SCell(NULL, NULL));
      mem := mem[HEADER := SCell(NULL, NULL)];
      var left, right, stop := HEADER, HEADER, false;
      ghost var items, x, t, y := Contents(), End, tree, End;
      while !stop && k != root.key
        invariant Apart(x, t, y, k, mem) && root == t.n && left == Tip(x) && right == Tip(y)
        invariant AllItems(x, t, y) == items && (stop ==> Stopped(t, k))
        invariant Only(Refs(items) + {HEADER}, old(mem), mem)
        decreases !stop, t
      {
        if k < root.key {
          right, stop, t, y := TurnLeft(k, right, x, t, y);
        } else {
          left, stop, x, t := TurnRight(k, left, x, t, y);
        }
      }
      TipIn(x, t, y);
      Assemble(left, right, x, t, y, k);
    }

    /** SPLAY_FIND: the node with the given key if there is one, and otherwise NULL. */
    method Find(k: int) returns (r: Ref)
      requires Valid()
      modifies this
      ensures Valid() && Contents() == old(Contents())
      ensures if HasKey(Contents(), k) then r in Contents() && r.key == k else r == NULL
    {
      r := NULL;
      if root != NULL {
        Splay(k);
        PartedHas(tree, k);
        if k == root.key { r := root; }
      }
    }

    /** SPLAY_INSERT: adds exactly elm if no node has its key; otherwise it returns the node that has it and
        changes nothing but the shape. */
    method Insert(elm: Ref) returns (r: Ref)
      requires Valid() && elm.addr != 0
      modifies this
      ensures Valid()
      ensures if HasKey(old(Contents()), elm.key) then
                r in old(Contents()) && r.key == elm.key && Contents() == old(Contents())
              else
                r == NULL && Refs(Contents()) == Refs(old(Contents())) + {elm} && |Contents()| == |old(Contents())| + 1
      ensures Only(Refs(old(Contents())) + {HEADER, elm}, old(mem), mem)
    {
      if root == NULL {
        mem := mem[elm := SCell(NULL, NULL)];
        tree := Node(Leaf, elm, Leaf);
      } else {
        Splay(elm.key);
        PartedHas(tree, elm.key);
        ghost var t := tree;
        assert t.n in Contents();
        if elm.key < root.key {
          InsertBelow(t, elm, mem);
          mem := mem[elm := SCell(mem[root].left, root)];
          mem := mem[root := mem[root].(left := NULL)];
          tree := Node(t.l, elm, Node(Leaf, t.n, t.r));
        } else if elm.key > root.key {
          InsertAbove(t, elm, mem);
          mem := mem[elm := SCell(root, mem[root].right)];
          mem := mem[root := mem[root].(right := NULL)];
          tree := Node(Node(t.l, t.n, Leaf), elm, t.r);
        } else {
          return root;
        }
      }
      root := elm;
      r := NULL;
    }

    /** SPLAY_REMOVE: takes out exactly the node with the key of elm, if there is one, and then returns the elm it
        was given, which need not be that node. */
    method Remove(elm: Ref) returns (r: Ref)
      requires Valid()
      modifies this
      ensures Valid()
      ensures r == if HasKey(old(Contents()), elm.key) then elm else NULL
      ensures forall e :: e in Contents() <==> e in old(Contents()) && e.key != elm.key
      ensures HasKey(old(Contents()), elm.key) ==> |Contents()| == |old(Contents())| - 1
      ensures Only(Refs(old(Contents())) + {HEADER}, old(mem), mem)
    {
      r := NULL;
      if root != NULL {
        Splay(elm.key);
        PartedHas(tree, elm.key);
        if elm.key == root.key {
          RemoveRoot();
          r := elm;
        }
      }
    }

    method RemoveRoot()
      requires Valid() && root != NULL
      modifies this
      ensures Valid()
      ensures Contents() == InOrder(old(tree).l) + InOrder(old(tree).r)
      ensures forall e :: e in Contents() <==> e in old(Contents()) && e.key != old(root).key
      ensures Only(Refs(old(Contents())) + {HEADER}, old(mem), mem)
    {
      ghost var t := tree;
      var k := root.key;
      assert mem[root] == SCell(RootOf(t.l), RootOf(t.r)) && Links(t.l, mem) && Links(t.r, mem);
      forall e ensures e in InOrder(t.l) + InOrder(t.r) <==> e in InOrder(t) && e.key != k {
        if e in InOrder(t.l) { ItemInside(t.l, Inf, At(k), e); }
        if e in InOrder(t.r) { ItemInside(t.r, At(k), Inf, e); }
      }
      if mem[root].left == NULL {
        OrdWider(t.r, At(k), Inf, Inf, Inf);
        root := mem[root].right;
        tree := t.r;
      } else {
        JoinLeft(t, k);
      }
    }

    // The greatest node of the left subtree becomes the root and takes over the right subtree.
    method JoinLeft(ghost t: Tree, k: int)
      requires Valid() && tree == t && t.Nd? && t.l.Nd? && k == t.n.key
      modifies this
      ensures Valid() && Contents() == InOrder(t.l) + InOrder(t.r)
      ensures Only(Refs(InOrder(t)) + {HEADER}, old(mem), mem)
    {
      assert Links(t.l, mem) && Links(t.r, mem);
      var tmp := mem[root].right;
      root := mem[root].left;
      tree := t.l;
      OrdWider(t.l, Inf, At(k), Inf, Inf);
      Splay(k);
      forall e | e in InOrder(t.l) ensures e.key < k { ItemInside(t.l, Inf, At(k), e); }
      LinksOnly(t.r, At(k), Inf, Refs(InOrder(t.l)) + {HEADER}, old(mem), mem);
      TightOrd(tree, Inf, Inf, At(k));
      GreatestAtRoot(tree, k);
      ghost var s := tree;
      assert s.n in InOrder(s) && mem[root] == SCell(RootOf(s.l), NULL);
      Joined(s, t.r, k, mem);
      mem := mem[root := mem[root].(right := tmp)];
      tree := Node(s.l, s.n, t.r);
    }
  }
}
