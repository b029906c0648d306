/** The red-black tree macros of src/include/tree.h, statement by statement. */
module RedBlackTree {
  import opened TreeShape
  import opened TreeBalance

  // s' is s with one more item, or one item less, in the same order.
  ghost predicate Inserted(s: seq<Ref>, e: Ref, s': seq<Ref>) {
    exists i :: 0 <= i <= |s| && s' == s[..i] + [e] + s[i..]
  }

  ghost predicate Removed(s: seq<Ref>, n: Ref, s': seq<Ref>) {
    exists i :: 0 <= i < |s| && s[i] == n && s' == s[..i] + s[i + 1..]
  }

  lemma {:induction false} InBounds(t: Tree, lo: Bound, hi: Bound)
    requires Ord(t, lo, hi)
    ensures forall i :: 0 <= i < |InOrder(t)| ==> Inside(lo, InOrder(t)[i].key, hi)
    ensures Sorted(InOrder(t))
  {
    if t.Nd? {
      InBounds(t.l, lo, At(t.n.key));
      InBounds(t.r, At(t.n.key), hi);
    }
  }

  // Where a search has come down to, all smaller keys lie before and all larger ones after.
  lemma {:induction false} SearchBounds(x: Ctx, k: int)
    requires COrd(x) && Inside(Lo(x), k, Hi(x))
    ensures forall i :: 0 <= i < |Before(x)| ==> Before(x)[i].key < k
    ensures forall i :: 0 <= i < |After(x)| ==> k < After(x)[i].key
  {
    match x
    case Top =>
    case InL(n, _, r, up) => SearchBounds(up, n.key); SearchBounds(up, k); InBounds(r, At(n.key), Hi(up));
    case InR(l, n, _, up) => SearchBounds(up, n.key); SearchBounds(up, k); InBounds(l, Lo(up), At(n.key));
  }

  lemma InsertItems(x: Ctx, e: Ref)
    requires COrd(x) && Inside(Lo(x), e.key, Hi(x))
    ensures !HasKey(Items(x, Leaf), e.key) && Inserted(Items(x, Leaf), e, Before(x) + [e] + After(x))
  {
    SearchBounds(x, e.key);
    var s, i := Items(x, Leaf), |Before(x)|;
    assert s == Before(x) + After(x) && s[..i] == Before(x) && s[i..] == After(x);
  }

  // Taking one item out of a sequence.
  lemma RemovedAt(p: seq<Ref>, l: seq<Ref>, e: Ref, r: seq<Ref>, q: seq<Ref>)
    ensures Removed(p + (l + [e] + r) + q, e, p + (l + r) + q)
    ensures Refs(p + (l + r) + q) <= Refs(p + (l + [e] + r) + q)
  {
    var s, s', i := p + (l + [e] + r) + q, p + (l + r) + q, |p + l|;
    assert s[i] == e && s[..i] + s[i + 1..] == s';
    forall j | 0 <= j < |s'| ensures s'[j] in Refs(s) {
      assert s'[j] == s[if j < i then j else j + 1];
    }
  }

  // What cutting out a node with at most one child does to the items.
  lemma SpliceItems(x: Ctx, t: Tree, kid: Tree)
    requires t.Nd? && ((t.l.Leaf? && kid == t.r) || (t.r.Leaf? && kid == t.l))
    ensures Removed(Items(x, t), t.n, Items(x, kid))
    ensures Refs(Items(x, kid)) <= Refs(Items(x, t))
  {
    assert InOrder(Leaf) == [];
    assert InOrder(kid) == InOrder(t.l) + InOrder(t.r);
    RemovedAt(Before(x), InOrder(t.l), t.n, InOrder(t.r), After(x));
  }

  // A node with two children: the successor f.n, at the end of the left spine, takes its place.
  lemma SuccessorItems(x: Ctx, t: Tree, path: Ctx, f: Tree)
    requires t.Nd? && f.Nd? && f.l.Leaf? && LeftSpine(path)
    requires Items(Append(path, InR(t.l, t.n, t.c, x)), f) == Items(x, t)
    ensures Removed(Items(x, t), t.n, Items(Append(path, InR(t.l, f.n, t.c, x)), f.r))
    ensures Refs(Items(Append(path, InR(t.l, f.n, t.c, x)), f.r)) <= Refs(Items(x, t))
  {
    LeftSpineItems(path, t.l, t.n, f.n, t.c, x);
    LeftSpineItems(path, t.l, f.n, t.n, t.c, x);
    assert InOrder(f) == [] + [f.n] + InOrder(f.r);
    RemovedBefore(Before(x) + InOrder(t.l), t.n, f.n, InOrder(f.r),
                  After(Append(path, InR(t.l, t.n, t.c, x))));
  }

  lemma RemovedBefore(p: seq<Ref>, e: Ref, e': Ref, r: seq<Ref>, q: seq<Ref>)
    ensures Removed((p + [e]) + ([] + [e'] + r) + q, e, (p + [e']) + r + q)
    ensures Refs((p + [e']) + r + q) <= Refs((p + [e]) + ([] + [e'] + r) + q)
  {
    assert (p + [e]) + ([] + [e'] + r) + q == p + ([] + [e] + ([e'] + r)) + q;
    assert (p + [e']) + r + q == p + ([] + ([e'] + r)) + q;
    RemovedAt(p, [], e, [e'] + r, q);
  }

  lemma SuccessorBalance(x: Ctx, t: Tree, path: Ctx, f: Tree)
    requires t.Nd? && f.Nd? && f.l.Leaf? && Balanced(Append(path, InR(t.l, t.n, t.c, x)), f)
    ensures f.c.Black? ==> Short(Append(path, InR(t.l, f.n, t.c, x)), f.r)
    ensures f.c.Red? ==> Balanced(Append(path, InR(t.l, f.n, t.c, x)), f.r)
  {
    SpliceBalance(Append(path, InR(t.l, t.n, t.c, x)), f, f.r);
    CtxOkRename(path, t.l, t.n, f.n, t.c, x, Bh(f));
  }

  // The focus can be moved to any item.
  lemma {:induction false} Locate(x: Ctx, t: Tree, i: nat, root: Ref, m: Memory) returns (x': Ctx, t': Tree)
    requires Zip(x, t, root, m) && Balanced(x, t) && i < |InOrder(t)|
    ensures Zip(x', t', root, m) && Balanced(x', t') && Items(x', t') == Items(x, t)
    ensures t'.Nd? && t'.n == InOrder(t)[i]
    ensures |Before(x')| + |InOrder(t'.l)| == |Before(x)| + i
    decreases t
  {
    if i < |InOrder(t.l)| {
      FocusL(t.n, t.c, t.r, x, t.l, root, m);
      x', t' := Locate(InL(t.n, t.c, t.r, x), t.l, i, root, m);
    } else if i > |InOrder(t.l)| {
      FocusR(t.l, t.n, t.c, x, t.r, root, m);
      x', t' := Locate(InR(t.l, t.n, t.c, x), t.r, i - |InOrder(t.l)| - 1, root, m);
    } else {
      x', t' := x, t;
    }
  }

  // The successor's key fits where the removed node was.
  lemma ReplaceOrder(x: Ctx, t: Tree, path: Ctx, f: Tree, root: Ref, m: Memory)
    requires t.Nd? && f.Nd? && LeftSpine(path) && Zip(x, t, root, m)
    requires Zip(Append(path, InR(t.l, t.n, t.c, x)), f, root, m)
    ensures t.n.key < f.n.key && Below(f.n.key, Hi(x)) && Ord(Plug(path, f.r), At(f.n.key), Hi(x))
    ensures m[f.n].parent == Parent(Append(path, InR(t.l, t.n, t.c, x)))
    ensures path.Top? <==> m[f.n].parent == t.n
  {
    LeftSpineItems(path, t.l, t.n, f.n, t.c, x);
    LeftSpineOrd(path, InR(t.l, t.n, t.c, x), f.r, f.n.key);
    if path.InL? { LeftSpineItems(path.up, t.l, t.n, f.n, t.c, x); }
  }

  // By which of its parent's links a node is found.
  lemma KidSide(x: Ctx, t: Tree, root: Ref, m: Memory)
    requires t.Nd? && Zip(x, t, root, m)
    ensures t.n in m && m[t.n].parent == Parent(x) && (!x.Top? ==> x.n in m && x.n != NULL)
    ensures x.InL? ==> m[x.n].left == t.n && m[x.n].right != t.n
    ensures x.InR? ==> m[x.n].right == t.n && m[x.n].left != t.n
  {
    if x.InL? { RootInside(x.r, At(x.n.key), Hi(x.up)); assert Rep(x.r, x.n, m); }
    if x.InR? { RootInside(x.l, Lo(x.up), At(x.n.key)); assert Rep(x.l, x.n, m); }
  }

  lemma {:induction false} RefIn(t: Tree, par: Ref, m: Memory, i: nat)
    requires Rep(t, par, m) && i < |InOrder(t)|
    ensures InOrder(t)[i] in m && InOrder(t)[i] != NULL
  {
    if i < |InOrder(t.l)| { RefIn(t.l, t.n, m, i); }
    else if i > |InOrder(t.l)| { RefIn(t.r, t.n, m, i - |InOrder(t.l)| - 1); }
  }

  ghost function First(s: seq<Ref>): Ref { if s == [] then NULL else s[0] }

  // r is the item at i, the first with a key not below k, or NULL if there is none.
  ghost predicate FirstFrom(s: seq<Ref>, k: int, r: Ref, i: nat) {
    && i <= |s| && r == First(s[i..])
    && (forall j :: 0 <= j < i ==> s[j].key < k)
    && (forall j :: i <= j < |s| ==> k <= s[j].key)
  }

  lemma NoneAt(x: Ctx, k: int)
    requires COrd(x) && Inside(Lo(x), k, Hi(x))
    ensures FirstFrom(Items(x, Leaf), k, First(After(x)), |Before(x)|)
  {
    SearchBounds(x, k);
    assert Items(x, Leaf) == Before(x) + After(x) && Items(x, Leaf)[|Before(x)|..] == After(x);
  }

  lemma FocusAt(x: Ctx, t: Tree)
    requires t.Nd?
    ensures |Before(x)| + |InOrder(t.l)| < |Items(x, t)| && Items(x, t)[|Before(x)| + |InOrder(t.l)|] == t.n
  {}

  // One step down a left spine.
  lemma DownLeft(path: Ctx, base: Ctx, f: Tree, root: Ref, m: Memory)
    requires f.Nd? && Zip(Append(path, base), f, root, m) && Balanced(Append(path, base), f) && f.n in m
    requires m[f.n].left != NULL
    ensures var y := Append(InL(f.n, f.c, f.r, path), base);
            Zip(y, f.l, root, m) && Balanced(y, f.l) && Items(y, f.l) == Items(Append(path, base), f)
    ensures f.l.Nd? && m[f.n].left == f.l.n
  {
    FocusL(f.n, f.c, f.r, Append(path, base), f.l, root, m);
  }

  datatype Op = Ins(elm: Ref) | Del(key: int)

  ghost predicate KeyIn(model: set<Ref>, k: int) { exists n :: n in model && n.key == k }

  lemma HasKeyRefs(s: seq<Ref>, k: int)
    ensures HasKey(s, k) <==> KeyIn(Refs(s), k)
  {
    if HasKey(s, k) {
      var e :| e in s && e.key == k;
      assert e in Refs(s);
    }
  }

  lemma NoKey(s: seq<Ref>, k: int)
    requires !HasKey(s, k)
    ensures Refs(s) == set n | n in Refs(s) && n.key != k
  {
    HasKeyRefs(s, k);
  }

  // What the operations do to the set of nodes in the tree.
  ghost function PlayOne(op: Op, model: set<Ref>): set<Ref> {
    match op
    case Ins(e) => if KeyIn(model, e.key) then model else model + {e}
    case Del(k) => set n | n in model && n.key != k
  }

  ghost function Play(ops: seq<Op>, model: set<Ref>): set<Ref> {
    if ops == [] then model else PlayOne(ops[|ops| - 1], Play(ops[..|ops| - 1], model))
  }

  lemma InsertedRefs(s: seq<Ref>, e: Ref, s': seq<Ref>)
    requires Inserted(s, e, s')
    ensures Refs(s') == Refs(s) + {e}
  {
    var i :| 0 <= i <= |s| && s' == s[..i] + [e] + s[i..];
    assert s == s[..i] + s[i..];
  }

  lemma DropIn(s: seq<Ref>, i: nat, n: Ref)
    requires Sorted(s) && i < |s|
    ensures n in s[..i] + s[i + 1..] <==> n in s && n.key != s[i].key
  {
    var s' := s[..i] + s[i + 1..];
    if j :| 0 <= j < |s'| && s'[j] == n { assert n == s[if j < i then j else j + 1]; }
    if j :| 0 <= j < |s| && s[j] == n && j != i { assert n == s'[if j < i then j else j - 1]; }
  }

  lemma RemovedRefs(s: seq<Ref>, e: Ref, s': seq<Ref>)
    requires Sorted(s) && Removed(s, e, s')
    ensures Refs(s') == set n | n in Refs(s) && n.key != e.key
  {
    var i :| 0 <= i < |s| && s[i] == e && s' == s[..i] + s[i + 1..];
    forall n ensures n in s' <==> n in s && n.key != e.key { DropIn(s, i, n); }
  }

  // The order of the nodes is determined by which nodes they are.
  lemma {:induction false} SortedUnique(s: seq<Ref>, s': seq<Ref>)
    requires Sorted(s) && Sorted(s') && Refs(s) == Refs(s')
    ensures s == s'
  {
    if s == [] {
      if s' != [] { NonEmptyRefs(s'); }
    } else {
      NonEmptyRefs(s);
      SameLast(s, s');
      var k, k' := |s| - 1, |s'| - 1;
      forall n ensures n in Refs(s[..k]) <==> n in Refs(s'[..k']) {
        DropLast(s, n);
        DropLast(s', n);
      }
      SortedUnique(s[..k], s'[..k']);
      assert s == s[..k] + [s[k]] && s' == s'[..k'] + [s'[k']];
    }
  }

  lemma SameLast(s: seq<Ref>, s': seq<Ref>)
    requires Sorted(s) && Sorted(s') && Refs(s) == Refs(s') && s != []
    ensures s' != [] && s[|s| - 1] == s'[|s'| - 1]
  {
    var k := |s| - 1;
    assert s[k] in Refs(s');
    var j :| 0 <= j < |s'| && s'[j] == s[k];
    var k' := |s'| - 1;
    assert s'[k'] in Refs(s);
    var i :| 0 <= i < |s| && s[i] == s'[k'];
  }

  lemma NonEmptyRefs(s: seq<Ref>)
    requires s != []
    ensures Refs(s) != {}
  {
    assert s[0] in Refs(s);
  }

  lemma DropLast(s: seq<Ref>, n: Ref)
    requires Sorted(s) && s != []
    ensures n in Refs(s[..|s| - 1]) <==> n in Refs(s) && n != s[|s| - 1]
  {
    assert s == s[..|s| - 1] + [s[|s| - 1]];
  }

  class RbTree {
    var root: Ref
    var mem: Memory
    ghost var tree: Tree

    /** Search order, links in both directions, colours and black heights. */
    ghost predicate Valid()
      reads this
    {
      Zip(Top, tree, root, mem) && Balanced(Top, tree)
    }

    ghost function Contents(): seq<Ref>
      reads this
    {
      InOrder(tree)
    }

    /** RB_INIT */
    constructor (m: Memory)
      ensures Valid() && Contents() == [] && mem == m
    {
      root, mem, tree := NULL, m, Leaf;
    }

    // The link to node `was`, in its parent p or in the tree head, is redirected to node `now`.
    method ReplaceChild(p: Ref, was: Ref, now: Ref, ghost x: Ctx)
      requires x.Top? ==> p == NULL
      requires !x.Top? ==> p == x.n && p != NULL && p in mem
      requires x.InL? ==> mem[p].left == was
      requires x.InR? ==> mem[p].right == was && mem[p].left != was
      modifies this`root, this`mem
      ensures Relinked(x, now, old(root), root, old(mem), mem)
      ensures Except(Parent1(x), old(mem), mem)
    {
      if p != NULL {
        if was == mem[p].left {
          mem := mem[p := mem[p].(left := now)];
        } else {
          mem := mem[p := mem[p].(right := now)];
        }
      } else {
        root := now;
      }
    }

    /** RB_ROTATE_LEFT, cell by cell */
    method RotateLeftCells(elm: Ref, ghost x: Ctx, ghost y: Ref, ghost b: Tree) returns (tmp: Ref)
      requires Rotatable(elm, x, y, b, mem) && mem[elm].right == y && mem[y].left == RootOf(b)
      modifies this`root, this`mem
      ensures tmp == y && Except({elm, y} + Root1(b) + Parent1(x), old(mem), mem)
      ensures mem[elm] == old(mem)[elm].(right := RootOf(b), parent := y)
      ensures mem[y] == old(mem)[y].(left := elm, parent := Parent(x))
      ensures b.Nd? ==> mem[b.n] == old(mem)[b.n].(parent := elm)
      ensures Relinked(x, y, old(root), root, old(mem), mem)
    {
      tmp := mem[elm].right;
      mem := mem[elm := mem[elm].(right := mem[tmp].left)];
      if mem[elm].right != NULL {
        mem := mem[mem[tmp].left := mem[mem[tmp].left].(parent := elm)];
      }
      mem := mem[tmp := mem[tmp].(parent := mem[elm].parent)];
      ReplaceChild(mem[elm].parent, elm, tmp, x);
      mem := mem[tmp := mem[tmp].(left := elm)];
      mem := mem[elm := mem[elm].(parent := tmp)];
    }

    /** RB_ROTATE_RIGHT, cell by cell */
    method RotateRightCells(elm: Ref, ghost x: Ctx, ghost y: Ref, ghost b: Tree) returns (tmp: Ref)
      requires Rotatable(elm, x, y, b, mem) && mem[elm].left == y && mem[y].right == RootOf(b)
      modifies this`root, this`mem
      ensures tmp == y && Except({elm, y} + Root1(b) + Parent1(x), old(mem), mem)
      ensures mem[elm] == old(mem)[elm].(left := RootOf(b), parent := y)
      ensures mem[y] == old(mem)[y].(right := elm, parent := Parent(x))
      ensures b.Nd? ==> mem[b.n] == old(mem)[b.n].(parent := elm)
      ensures Relinked(x, y, old(root), root, old(mem), mem)
    {
      tmp := mem[elm].left;
      mem := mem[elm := mem[elm].(left := mem[tmp].right)];
      if mem[elm].left != NULL {
        mem := mem[mem[tmp].right := mem[mem[tmp].right].(parent := elm)];
      }
      mem := mem[tmp := mem[tmp].(parent := mem[elm].parent)];
      ReplaceChild(mem[elm].parent, elm, tmp, x);
      mem := mem[tmp := mem[tmp].(right := elm)];
      mem := mem[elm := mem[elm].(parent := tmp)];
    }

    /** RB_ROTATE_LEFT, on the tree */
    method RotateLeft(elm: Ref, ghost x: Ctx, ghost t: Tree) returns (tmp: Ref, ghost t': Tree)
      requires t.Nd? && t.n == elm && t.r.Nd? && Zip(x, t, root, mem)
      modifies this`root, this`mem
      ensures tmp == t.r.n && t' == Nd(Nd(t.l, elm, t.c, t.r.l), tmp, t.r.c, t.r.r)
      ensures Zip(x, t', root, mem) && InOrder(t') == InOrder(t)
      ensures Except(Refs(Items(x, t)), old(mem), mem)
    {
      RotateLeftFacts(x, t, root, mem);
      tmp := RotateLeftCells(elm, x, t.r.n, t.r.l);
      t' := Nd(Nd(t.l, elm, t.c, t.r.l), tmp, t.r.c, t.r.r);
      RotateOrder(t.l, t.n, t.c, t.r.l, t.r.n, t.r.c, t.r.r);
      RotateLeftRep(x, t.l, t.n, t.c, t.r.l, t.r.n, t.r.c, t.r.r, old(root), root, old(mem), mem);
    }

    /** RB_ROTATE_RIGHT, on the tree */
    method RotateRight(elm: Ref, ghost x: Ctx, ghost t: Tree) returns (tmp: Ref, ghost t': Tree)
      requires t.Nd? && t.n == elm && t.l.Nd? && Zip(x, t, root, mem)
      modifies this`root, this`mem
      ensures tmp == t.l.n && t' == Nd(t.l.l, tmp, t.l.c, Nd(t.l.r, elm, t.c, t.r))
      ensures Zip(x, t', root, mem) && InOrder(t') == InOrder(t)
      ensures Except(Refs(Items(x, t)), old(mem), mem)
    {
      RotateRightFacts(x, t, root, mem);
      tmp := RotateRightCells(elm, x, t.l.n, t.l.r);
      t' := Nd(t.l.l, tmp, t.l.c, Nd(t.l.r, elm, t.c, t.r));
      RotateOrder(t.l.l, t.l.n, t.l.c, t.l.r, t.n, t.c, t.r);
      RotateRightRep(x, t.l.l, t.l.n, t.l.c, t.l.r, t.n, t.c, t.r, old(root), root, old(mem), mem);
    }

    method SetColor(elm: Ref, c: Color, ghost x: Ctx, ghost t: Tree)
      requires t.Nd? && t.n == elm && Zip(x, t, root, mem)
      modifies this`mem
      ensures Zip(x, t.(c := c), root, mem)
      ensures Except(Refs(Items(x, t)), old(mem), mem)
    {
      mem := mem[elm := mem[elm].(color := c)];
      PaintRep(x, t, c, root, old(mem), mem);
      RootRef(x, t);
    }

    method SetColorLeft(elm: Ref, c: Color, ghost x: Ctx, ghost t: Tree) returns (ghost t': Tree)
      requires t.Nd? && t.l.Nd? && t.l.n == elm && Zip(x, t, root, mem)
      modifies this`mem
      ensures t' == t.(l := t.l.(c := c)) && Zip(x, t', root, mem) && InOrder(t') == InOrder(t)
      ensures Except(Refs(Items(x, t)), old(mem), mem)
    {
      FocusL(t.n, t.c, t.r, x, t.l, root, mem);
      SetColor(elm, c, InL(t.n, t.c, t.r, x), t.l);
      t' := t.(l := t.l.(c := c));
      FocusL(t.n, t.c, t.r, x, t.l.(c := c), root, mem);
    }

    method SetColorRight(elm: Ref, c: Color, ghost x: Ctx, ghost t: Tree) returns (ghost t': Tree)
      requires t.Nd? && t.r.Nd? && t.r.n == elm && Zip(x, t, root, mem)
      modifies this`mem
      ensures t' == t.(r := t.r.(c := c)) && Zip(x, t', root, mem) && InOrder(t') == InOrder(t)
      ensures Except(Refs(Items(x, t)), old(mem), mem)
    {
      FocusR(t.l, t.n, t.c, x, t.r, root, mem);
      SetColor(elm, c, InR(t.l, t.n, t.c, x), t.r);
      t' := t.(r := t.r.(c := c));
      FocusR(t.l, t.n, t.c, x, t.r.(c := c), root, mem);
    }

    // One round of RB_INSERT_COLOR below the left child of the grandparent.
    method InsertStepLeft(elm0: Ref, parent0: Ref, gparent: Ref, ghost x: Ctx, ghost t: Tree)
      returns (elm: Ref, ghost x': Ctx, ghost t': Tree)
      requires Zip(x, t, root, mem) && RedFocus(x, t) && !x.Top? && x.c.Red? && x.up.InL?
      requires elm0 == t.n && parent0 == x.n && gparent == x.up.n
      modifies this`root, this`mem
      ensures Zip(x', t', root, mem) && RedFocus(x', t') && elm == t'.n && Depth(x') < Depth(x)
      ensures Items(x', t') == Items(x, t) && Except(Refs(Items(x, t)), old(mem), mem)
    {
      RedRedFacts(x, t, root, mem);
      elm := elm0;
      var parent := parent0;
      ghost var up, up2, p := x.up, x.up.up, PlugOne(x, t);
      ghost var g := PlugOne(up, p);
      var tmp := mem[gparent].right;
      if tmp != NULL && mem[tmp].color == Red {
        RecolorBalance(x, t);
        g := SetColorRight(tmp, Black, up2, g);
        g := SetColorLeft(parent, Black, up2, g);
        SetColor(gparent, Red, up2, g);
        x', t' := up2, g.(c := Red);
        elm := gparent;
      } else {
        RotateBalance(x, t);
        if mem[parent].right == elm {
          tmp, p := RotateLeft(parent, up, p);
          tmp := parent;
          parent := elm;
          elm := tmp;
          Focus(up, p, root, mem);
          g := PlugOne(up, p);
        }
        g := SetColorLeft(parent, Black, up2, g);
        SetColor(gparent, Red, up2, g);
        g := g.(c := Red);
        tmp, g := RotateRight(gparent, up2, g);
        x', t' := InL(g.n, g.c, g.r, up2), g.l;
        FocusL(g.n, g.c, g.r, up2, t', root, mem);
        assert (x', t') == Rotated(x, t);
      }
    }

    // One round of RB_INSERT_COLOR below the right child of the grandparent.
    method InsertStepRight(elm0: Ref, parent0: Ref, gparent: Ref, ghost x: Ctx, ghost t: Tree)
      returns (elm: Ref, ghost x': Ctx, ghost t': Tree)
      requires Zip(x, t, root, mem) && RedFocus(x, t) && !x.Top? && x.c.Red? && x.up.InR?
      requires elm0 == t.n && parent0 == x.n && gparent == x.up.n
      modifies this`root, this`mem
      ensures Zip(x', t', root, mem) && RedFocus(x', t') && elm == t'.n && Depth(x') < Depth(x)
      ensures Items(x', t') == Items(x, t) && Except(Refs(Items(x, t)), old(mem), mem)
    {
      RedRedFacts(x, t, root, mem);
      elm := elm0;
      var parent := parent0;
      ghost var up, up2, p := x.up, x.up.up, PlugOne(x, t);
      ghost var g := PlugOne(up, p);
      var tmp := mem[gparent].left;
      if tmp != NULL && mem[tmp].color == Red {
        RecolorBalance(x, t);
        g := SetColorLeft(tmp, Black, up2, g);
        g := SetColorRight(parent, Black, up2, g);
        SetColor(gparent, Red, up2, g);
        x', t' := up2, g.(c := Red);
        elm := gparent;
      } else {
        RotateBalance(x, t);
        if mem[parent].left == elm {
          tmp, p := RotateRight(parent, up, p);
          tmp := parent;
          parent := elm;
          elm := tmp;
          Focus(up, p, root, mem);
          g := PlugOne(up, p);
        }
        g := SetColorRight(parent, Black, up2, g);
        SetColor(gparent, Red, up2, g);
        g := g.(c := Red);
        tmp, g := RotateLeft(gparent, up2, g);
        x', t' := InR(g.l, g.n, g.c, up2), g.r;
        FocusR(g.l, g.n, g.c, up2, t', root, mem);
        assert (x', t') == Rotated(x, t);
      }
    }

    // One round of RB_INSERT_COLOR.
    method InsertStep(elm0: Ref, parent: Ref, ghost x: Ctx, ghost t: Tree)
      returns (elm: Ref, ghost x': Ctx, ghost t': Tree)
      requires Zip(x, t, root, mem) && RedFocus(x, t) && !x.Top? && x.c.Red? && elm0 == t.n && parent == x.n
      modifies this`root, this`mem
      ensures Zip(x', t', root, mem) && RedFocus(x', t') && elm == t'.n && Depth(x') < Depth(x)
      ensures Items(x', t') == Items(x, t) && Except(Refs(Items(x, t)), old(mem), mem)
    {
      RedRedReads(x, t, root, mem);
      var gparent := mem[parent].parent;
      if parent == mem[gparent].left {
        elm, x', t' := InsertStepLeft(elm0, parent, gparent, x, t);
      } else {
        elm, x', t' := InsertStepRight(elm0, parent, gparent, x, t);
      }
    }

    // The end of RB_INSERT_COLOR: the root is painted black.
    method BlackenRoot(ghost x: Ctx, ghost t: Tree) returns (ghost t': Tree)
      requires Zip(x, t, root, mem) && RedFocus(x, t) && (x.Top? || x.c.Black?)
      modifies this`mem
      ensures Zip(Top, t', root, mem) && Balanced(Top, t') && InOrder(t') == Items(x, t)
      ensures Except(Refs(Items(x, t)), old(mem), mem)
    {
      FocusUp(x, Top, t, root, mem);
      AppendTop(x);
      BalancedUp(x, Top, t);
      if !x.Top? { RootInCtx(x, root, t.n, mem); }
      assert Items(Top, Plug(x, t)) == InOrder(Plug(x, t));
      SetColor(root, Black, Top, Plug(x, t));
      t' := Plug(x, t).(c := Black);
    }

    /** RB_INSERT_COLOR */
    method InsertColor(elm0: Ref, ghost x0: Ctx, ghost t0: Tree) returns (ghost t': Tree)
      requires Zip(x0, t0, root, mem) && RootOf(t0) == elm0 && RedFocus(x0, t0)
      modifies this`root, this`mem
      ensures Zip(Top, t', root, mem) && Balanced(Top, t') && InOrder(t') == Items(x0, t0)
      ensures Except(Refs(Items(x0, t0)), old(mem), mem)
    {
      ghost var x, t := x0, t0;
      var elm := elm0;
      var parent := mem[elm].parent;
      while parent != NULL && mem[parent].color == Red
        invariant Zip(x, t, root, mem) && RedFocus(x, t) && elm == t.n && parent == Parent(x)
        invariant Items(x, t) == Items(x0, t0) && Except(Refs(Items(x0, t0)), old(mem), mem)
        decreases Depth(x)
      {
        elm, x, t := InsertStep(elm, parent, x, t);
        parent := mem[elm].parent;
      }
      t' := BlackenRoot(x, t);
    }

    // The second half of RB_INSERT: the new node is linked in and the colours are repaired.
    method InsertAt(elm: Ref, parent: Ref, comp: int, ghost x: Ctx) returns (ghost t': Tree)
      requires Zip(x, Leaf, root, mem) && Balanced(x, Leaf)
      requires elm != NULL && elm in mem && Inside(Lo(x), elm.key, Hi(x))
      requires parent == Parent(x) && (x.InL? ==> comp < 0) && (x.InR? ==> comp > 0)
      modifies this`root, this`mem
      ensures Zip(Top, t', root, mem) && Balanced(Top, t')
      ensures InOrder(t') == Before(x) + [elm] + After(x)
      ensures Except(Refs(InOrder(t')), old(mem), mem)
    {
      ghost var key := elm.key;
      assert !x.Top? ==> x.n != elm;
      mem := mem[elm := mem[elm].(parent := parent, left := NULL, right := NULL, color := Red)];
      if parent != NULL {
        if comp < 0 {
          mem := mem[parent := mem[parent].(left := elm)];
        } else {
          mem := mem[parent := mem[parent].(right := elm)];
        }
      } else {
        root := elm;
      }
      AttachRep(x, elm, old(root), root, old(mem), mem);
      ghost var t := Nd(Leaf, elm, Red, Leaf);
      assert InOrder(t) == [elm];
      ParentRef(x, t);
      RootRef(x, t);
      t' := InsertColor(elm, x, t);
    }

    // The search loop of RB_INSERT: tmp is the node with this key, or the key belongs into the hole of x.
    method Descend(key: int) returns (tmp: Ref, parent: Ref, comp: int, ghost x: Ctx, ghost t: Tree)
      requires Valid()
      ensures Zip(x, t, root, mem) && Balanced(x, t) && Items(x, t) == Contents()
      ensures tmp == RootOf(t) && (tmp != NULL ==> t.n.key == key)
      ensures tmp == NULL ==> Inside(Lo(x), key, Hi(x))
      ensures tmp == NULL ==> parent == Parent(x) && (x.InL? ==> comp < 0) && (x.InR? ==> comp > 0)
    {
      x, t := Top, tree;
      tmp, parent, comp := root, NULL, 0;
      while tmp != NULL
        invariant Zip(x, t, root, mem) && Balanced(x, t) && Items(x, t) == Contents()
        invariant Inside(Lo(x), key, Hi(x))
        invariant tmp == RootOf(t) && parent == Parent(x)
        invariant (x.InL? ==> comp < 0) && (x.InR? ==> comp > 0)
        decreases t
      {
        parent := tmp;
        comp := key - parent.key;
        if comp < 0 {
          FocusL(t.n, t.c, t.r, x, t.l, root, mem);
          tmp := mem[tmp].left;
          x, t := InL(t.n, t.c, t.r, x), t.l;
        } else if comp > 0 {
          FocusR(t.l, t.n, t.c, x, t.r, root, mem);
          tmp := mem[tmp].right;
          x, t := InR(t.l, t.n, t.c, x), t.r;
        } else {
          return;
        }
      }
    }

    /** RB_INSERT */
    method Insert(elm: Ref) returns (r: Ref)
      requires Valid() && elm != NULL && elm in mem
      modifies this
      ensures Valid() && elm in mem
      ensures r != NULL ==>
                && root == old(root) && mem == old(mem) && Contents() == old(Contents())
                && r in Contents() && r.key == elm.key
      ensures r == NULL ==>
                && !HasKey(old(Contents()), elm.key)
                && Inserted(old(Contents()), elm, Contents())
      ensures Except(Refs(Contents()), old(mem), mem)
    {
      ghost var x, t;
      var parent, comp;
      r, parent, comp, x, t := Descend(elm.key);
      if r != NULL {
        assert Items(x, t)[|Before(x)| + |InOrder(t.l)|] == t.n;
        return;
      }
      ghost var e := elm;
      InsertItems(x, e);
      ghost var t' := InsertAt(elm, parent, comp, x);
      assert InOrder(t')[|Before(x)|] == e;
      tree := t';
    }

    // The red-sibling case of RB_REMOVE_COLOR, focus on the left.
    method RemoveRedSiblingLeft(parent: Ref, sibling: Ref, ghost x: Ctx, ghost t: Tree)
      returns (tmp: Ref, ghost x': Ctx)
      requires Zip(x, t, root, mem) && x.InL? && x.r.Nd? && parent == x.n && sibling == x.r.n
      modifies this`root, this`mem
      ensures x' == AfterRedSibling(x) && tmp == RootOf(x'.r) && Zip(x', t, root, mem)
      ensures Items(x', t) == Items(x, t) && Except(Refs(Items(x, t)), old(mem), mem)
    {
      ghost var up, p := x.up, PlugOne(x, t);
      Focus(x, t, root, mem);
      p := SetColorRight(sibling, Black, up, p);
      SetColor(parent, Red, up, p);
      p := p.(c := Red);
      tmp, p := RotateLeft(parent, up, p);
      ghost var up' := InL(p.n, p.c, p.r, up);
      FocusL(p.n, p.c, p.r, up, p.l, root, mem);
      x' := InL(parent, Red, x.r.l, up');
      FocusL(parent, Red, x.r.l, up', t, root, mem);
      tmp := mem[parent].right;
    }

    // The last case of RB_REMOVE_COLOR, focus on the left: the black sibling has a red child.
    method RemoveRefillLeft(parent: Ref, sibling: Ref, ghost x: Ctx, ghost t: Tree) returns (ghost w: Tree)
      requires Zip(x, t, root, mem) && x.InL? && x.r.Nd? && parent == x.n && sibling == x.r.n
      requires IsRed(x.r.l) || IsRed(x.r.r)
      modifies this`root, this`mem
      ensures w == Refilled(x, t) && Zip(x.up, w, root, mem)
      ensures Items(x.up, w) == Items(x, t) && Except(Refs(Items(x, t)), old(mem), mem)
    {
      var tmp := sibling;
      ghost var up, p, s, y := x.up, PlugOne(x, t), x.r, InR(t, x.n, x.c, x.up);
      Focus(x, t, root, mem);
      FocusR(t, x.n, x.c, up, s, root, mem);
      assert Rep(s.r, s.n, mem) && Rep(s.l, s.n, mem);
      if mem[tmp].right == NULL || mem[mem[tmp].right].color == Black {
        var oleft := mem[tmp].left;
        if oleft != NULL {
          s := SetColorLeft(oleft, Black, y, s);
        }
        SetColor(tmp, Red, y, s);
        s := s.(c := Red);
        oleft, s := RotateRight(tmp, y, s);
        FocusR(t, x.n, x.c, up, s, root, mem);
        tmp := mem[parent].right;
      }
      w := RemoveRefillEndLeft(parent, tmp, x, t, s);
    }

    method RemoveRefillEndLeft(parent: Ref, tmp0: Ref, ghost x: Ctx, ghost t: Tree, ghost s0: Tree)
      returns (ghost w: Tree)
      requires x.InL? && s0.Nd? && s0.r.Nd? && parent == x.n && tmp0 == s0.n
      requires Zip(InR(t, x.n, x.c, x.up), s0, root, mem)
      modifies this`root, this`mem
      ensures w == Nd(Nd(t, x.n, Black, s0.l), s0.n, x.c, s0.r.(c := Black)) && Zip(x.up, w, root, mem)
      ensures Items(x.up, w) == Items(InR(t, x.n, x.c, x.up), s0)
      ensures Except(Refs(Items(x.up, w)), old(mem), mem)
    {
      var tmp := tmp0;
      ghost var up, y := x.up, InR(t, x.n, Black, x.up);
      ghost var p := Nd(t, x.n, x.c, s0);
      FocusR(t, x.n, x.c, up, s0, root, mem);
      p := SetColorRight(tmp, mem[parent].color, up, p);
      SetColor(parent, Black, up, p);
      ghost var s := p.r;
      FocusR(t, x.n, Black, up, s, root, mem);
      assert Rep(s.r, s.n, mem);
      if mem[tmp].right != NULL {
        s := SetColorRight(mem[tmp].right, Black, y, s);
      }
      p := Nd(t, x.n, Black, s);
      FocusR(t, x.n, Black, up, s, root, mem);
      tmp, w := RotateLeft(parent, up, p);
    }

    // One round of RB_REMOVE_COLOR with the focus on the left; fin says that the loop ends here.
    method RemoveStepLeft(elm0: Ref, parent0: Ref, ghost x: Ctx, ghost t: Tree)
      returns (elm: Ref, parent: Ref, fin: bool, ghost x': Ctx, ghost t': Tree)
      requires Zip(x, t, root, mem) && Short(x, t) && !IsRed(t) && x.InL? && parent0 == x.n && elm0 == RootOf(t)
      modifies this`root, this`mem
      ensures Zip(x', t', root, mem) && Items(x', t') == Items(x, t)
      ensures !fin ==> Short(x', t') && elm == RootOf(t') && parent == Parent(x') && Measure(x', t') < Measure(x, t)
      ensures fin ==> Balanced(x', t') && elm == root
      ensures Except(Refs(Items(x, t)), old(mem), mem)
    {
      SideFacts(x, t, root, mem);
      var tmp := mem[parent0].right;
      ghost var x1 := x;
      if mem[tmp].color == Red {
        RedSiblingShort(x, t);
        tmp, x1 := RemoveRedSiblingLeft(parent0, tmp, x, t);
      }
      SideFacts(x1, t, root, mem);
      assert Rep(x1.r, x1.n, mem);
      assert Rep(x1.r.l, tmp, mem) && Rep(x1.r.r, tmp, mem);
      if (mem[tmp].left == NULL || mem[mem[tmp].left].color == Black)
         && (mem[tmp].right == NULL || mem[mem[tmp].right].color == Black)
      {
        RecolorShort(x1, t);
        Focus(x1, t, root, mem);
        x', t' := x1.up, PlugOne(x1, t);
        t' := SetColorRight(tmp, Red, x', t');
        elm := parent0;
        parent := mem[elm].parent;
        fin := false;
      } else {
        RefillBalance(x1, t);
        x' := x1.up;
        t' := RemoveRefillLeft(parent0, tmp, x1, t);
        elm, parent := root, parent0;
        fin := true;
      }
    }

    // The red-sibling case of RB_REMOVE_COLOR, focus on the right.
    method RemoveRedSiblingRight(parent: Ref, sibling: Ref, ghost x: Ctx, ghost t: Tree)
      returns (tmp: Ref, ghost x': Ctx)
      requires Zip(x, t, root, mem) && x.InR? && x.l.Nd? && parent == x.n && sibling == x.l.n
      modifies this`root, this`mem
      ensures x' == AfterRedSibling(x) && tmp == RootOf(x'.l) && Zip(x', t, root, mem)
      ensures Items(x', t) == Items(x, t) && Except(Refs(Items(x, t)), old(mem), mem)
    {
      ghost var up, p := x.up, PlugOne(x, t);
      Focus(x, t, root, mem);
      p := SetColorLeft(sibling, Black, up, p);
      SetColor(parent, Red, up, p);
      p := p.(c := Red);
      tmp, p := RotateRight(parent, up, p);
      ghost var up' := InR(p.l, p.n, p.c, up);
      FocusR(p.l, p.n, p.c, up, p.r, root, mem);
      x' := InR(x.l.r, parent, Red, up');
      FocusR(x.l.r, parent, Red, up', t, root, mem);
      tmp := mem[parent].left;
    }

    // The last case of RB_REMOVE_COLOR, focus on the right: the black sibling has a red child.
    method RemoveRefillRight(parent: Ref, sibling: Ref, ghost x: Ctx, ghost t: Tree) returns (ghost w: Tree)
      requires Zip(x, t, root, mem) && x.InR? && x.l.Nd? && parent == x.n && sibling == x.l.n
      requires IsRed(x.l.r) || IsRed(x.l.l)
      modifies this`root, this`mem
      ensures w == Refilled(x, t) && Zip(x.up, w, root, mem)
      ensures Items(x.up, w) == Items(x, t) && Except(Refs(Items(x, t)), old(mem), mem)
    {
      var tmp := sibling;
      ghost var up, p, s, y := x.up, PlugOne(x, t), x.l, InL(x.n, x.c, t, x.up);
      Focus(x, t, root, mem);
      FocusL(x.n, x.c, t, up, s, root, mem);
      assert Rep(s.l, s.n, mem) && Rep(s.r, s.n, mem);
      if mem[tmp].left == NULL || mem[mem[tmp].left].color == Black {
        var oright := mem[tmp].right;
        if oright != NULL {
          s := SetColorRight(oright, Black, y, s);
        }
        SetColor(tmp, Red, y, s);
        s := s.(c := Red);
        oright, s := RotateLeft(tmp, y, s);
        FocusL(x.n, x.c, t, up, s, root, mem);
        tmp := mem[parent].left;
      }
      w := RemoveRefillEndRight(parent, tmp, x, t, s);
    }

    method RemoveRefillEndRight(parent: Ref, tmp0: Ref, ghost x: Ctx, ghost t: Tree, ghost s0: Tree)
      returns (ghost w: Tree)
      requires x.InR? && s0.Nd? && s0.l.Nd? && parent == x.n && tmp0 == s0.n
      requires Zip(InL(x.n, x.c, t, x.up), s0, root, mem)
      modifies this`root, this`mem
      ensures w == Nd(s0.l.(c := Black), s0.n, x.c, Nd(s0.r, x.n, Black, t)) && Zip(x.up, w, root, mem)
      ensures Items(x.up, w) == Items(InL(x.n, x.c, t, x.up), s0)
      ensures Except(Refs(Items(x.up, w)), old(mem), mem)
    {
      var tmp := tmp0;
      ghost var up, y := x.up, InL(x.n, Black, t, x.up);
      ghost var p := Nd(s0, x.n, x.c, t);
      FocusL(x.n, x.c, t, up, s0, root, mem);
      p := SetColorLeft(tmp, mem[parent].color, up, p);
      SetColor(parent, Black, up, p);
      ghost var s := p.l;
      FocusL(x.n, Black, t, up, s, root, mem);
      assert Rep(s.l, s.n, mem);
      if mem[tmp].left != NULL {
        s := SetColorLeft(mem[tmp].left, Black, y, s);
      }
      p := Nd(s, x.n, Black, t);
      FocusL(x.n, Black, t, up, s, root, mem);
      tmp, w := RotateRight(parent, up, p);
    }

    // One round of RB_REMOVE_COLOR with the focus on the right; fin says that the loop ends here.
    method RemoveStepRight(elm0: Ref, parent0: Ref, ghost x: Ctx, ghost t: Tree)
      returns (elm: Ref, parent: Ref, fin: bool, ghost x': Ctx, ghost t': Tree)
      requires Zip(x, t, root, mem) && Short(x, t) && !IsRed(t) && x.InR? && parent0 == x.n && elm0 == RootOf(t)
      modifies this`root, this`mem
      ensures Zip(x', t', root, mem) && Items(x', t') == Items(x, t)
      ensures !fin ==> Short(x', t') && elm == RootOf(t') && parent == Parent(x') && Measure(x', t') < Measure(x, t)
      ensures fin ==> Balanced(x', t') && elm == root
      ensures Except(Refs(Items(x, t)), old(mem), mem)
    {
      SideFacts(x, t, root, mem);
      var tmp := mem[parent0].left;
      ghost var x1 := x;
      if mem[tmp].color == Red {
        RedSiblingShort(x, t);
        tmp, x1 := RemoveRedSiblingRight(parent0, tmp, x, t);
      }
      SideFacts(x1, t, root, mem);
      assert Rep(x1.l, x1.n, mem);
      assert Rep(x1.l.r, tmp, mem) && Rep(x1.l.l, tmp, mem);
      if (mem[tmp].left == NULL || mem[mem[tmp].left].color == Black)
         && (mem[tmp].right == NULL || mem[mem[tmp].right].color == Black)
      {
        RecolorShort(x1, t);
        Focus(x1, t, root, mem);
        x', t' := x1.up, PlugOne(x1, t);
        t' := SetColorLeft(tmp, Red, x', t');
        elm := parent0;
        parent := mem[elm].parent;
        fin := false;
      } else {
        RefillBalance(x1, t);
        x' := x1.up;
        t' := RemoveRefillRight(parent0, tmp, x1, t);
        elm, parent := root, parent0;
        fin := true;
      }
    }

    // The loop of RB_REMOVE_COLOR ends: its focus, or the root, is painted black.
    method RemoveEnd(elm: Ref, ghost x: Ctx, ghost t: Tree) returns (ghost t': Tree)
      requires Zip(x, t, root, mem) && elm == RootOf(t) && Balanced(x, Painted(t))
      modifies this`mem
      ensures Zip(Top, t', root, mem) && Balanced(Top, t') && InOrder(t') == Items(x, t)
      ensures Except(Refs(Items(x, t)), old(mem), mem)
    {
      if elm != NULL {
        SetColor(elm, Black, x, t);
      }
      t' := Plug(x, Painted(t));
      FocusUp(x, Top, Painted(t), root, mem);
      AppendTop(x);
      BalancedUp(x, Top, Painted(t));
      assert Items(Top, t') == InOrder(t');
    }

    /** RB_REMOVE_COLOR */
    method RemoveColor(parent0: Ref, elm0: Ref, ghost x0: Ctx, ghost t0: Tree) returns (ghost t': Tree)
      requires Zip(x0, t0, root, mem) && Short(x0, t0) && elm0 == RootOf(t0) && parent0 == Parent(x0)
      modifies this`root, this`mem
      ensures Zip(Top, t', root, mem) && Balanced(Top, t') && InOrder(t') == Items(x0, t0)
      ensures Except(Refs(Items(x0, t0)), old(mem), mem)
    {
      ghost var x, t := x0, t0;
      var elm, parent, fin := elm0, parent0, false;
      SideFacts(x, t, root, mem);
      while (elm == NULL || mem[elm].color == Black) && elm != root
        invariant Zip(x, t, root, mem) && Short(x, t) && elm == RootOf(t) && parent == Parent(x)
        invariant Items(x, t) == Items(x0, t0) && Except(Refs(Items(x0, t0)), old(mem), mem)
        decreases Measure(x, t)
      {
        SideFacts(x, t, root, mem);
        if mem[parent].left == elm {
          elm, parent, fin, x, t := RemoveStepLeft(elm, parent, x, t);
        } else {
          elm, parent, fin, x, t := RemoveStepRight(elm, parent, x, t);
        }
        if fin {
          FocusUp(x, Top, t, root, mem);
          AppendTop(x);
          BalancedUp(x, Top, t);
          x, t := Top, Plug(x, t);
          PaintedBalance(x, t);
          break;
        }
      }
      if !fin {
        SideFacts(x, t, root, mem);
        PaintedBalance(x, t);
      }
      t' := RemoveEnd(elm, x, t);
    }

    // A node with at most one child is unlinked; its child takes its place.
    method Splice(elm: Ref, child: Ref, parent: Ref, ghost x: Ctx, ghost t: Tree, ghost kid: Tree)
      requires t.Nd? && t.n == elm && Zip(x, t, root, mem) && parent == Parent(x) && child == RootOf(kid)
      requires (t.l.Leaf? && kid == t.r) || (t.r.Leaf? && kid == t.l)
      modifies this`root, this`mem
      ensures Zip(x, kid, root, mem) && Except(Root1(kid) + Parent1(x), old(mem), mem)
    {
      assert Rep(kid, elm, mem) && (x.InR? ==> Rep(x.l, x.n, mem));
      assert Ord(t.l, Lo(x), At(t.n.key)) && Ord(t.r, At(t.n.key), Hi(x));
      assert kid.Nd? ==> Inside(Lo(x), kid.n.key, Hi(x)) && kid.n.key == kid.n.key;
      if child != NULL {
        mem := mem[child := mem[child].(parent := parent)];
      }
      ReplaceChild(parent, elm, child, x);
      SpliceRep(x, t, kid, old(root), root, old(mem), mem);
    }

    // RB_REMOVE of a node with at most one child.
    method RemoveSimple(elm: Ref, child: Ref, ghost x: Ctx, ghost t: Tree, ghost kid: Tree) returns (ghost t': Tree)
      requires t.Nd? && t.n == elm && Zip(x, t, root, mem) && Balanced(x, t) && child == RootOf(kid)
      requires (t.l.Leaf? && kid == t.r) || (t.r.Leaf? && kid == t.l)
      modifies this`root, this`mem
      ensures Zip(Top, t', root, mem) && Balanced(Top, t') && InOrder(t') == Items(x, kid)
      ensures Except(Refs(Items(x, t)), old(mem), mem)
    {
      var parent, color := mem[elm].parent, mem[elm].color;
      SpliceBalance(x, t, kid);
      KidRefs(x, t);
      ParentRef(x, t);
      Splice(elm, child, parent, x, t, kid);
      SpliceItems(x, t, kid);
      if color == Black {
        t' := RemoveColor(parent, child, x, kid);
      } else {
        t' := Plug(x, kid);
        FocusUp(x, Top, kid, root, mem);
        AppendTop(x);
        BalancedUp(x, Top, kid);
        assert Items(Top, t') == InOrder(t');
      }
    }

    // The search of RB_REMOVE for the leftmost node of the right subtree.
    method Successor(victim: Ref, ghost x: Ctx, ghost t: Tree) returns (elm: Ref, ghost path: Ctx, ghost f: Tree)
      requires t.Nd? && t.n == victim && t.r.Nd? && Zip(x, t, root, mem) && Balanced(x, t)
      ensures f.Nd? && f.n == elm && f.l.Leaf? && LeftSpine(path)
      ensures var y := Append(path, InR(t.l, t.n, t.c, x));
              Zip(y, f, root, mem) && Balanced(y, f) && Items(y, f) == Items(x, t)
    {
      ghost var base := InR(t.l, t.n, t.c, x);
      FocusR(t.l, t.n, t.c, x, t.r, root, mem);
      elm, path, f := mem[victim].right, Top, t.r;
      while mem[elm].left != NULL
        invariant f.Nd? && f.n == elm && LeftSpine(path)
        invariant Zip(Append(path, base), f, root, mem) && Balanced(Append(path, base), f)
        invariant Items(Append(path, base), f) == Items(x, t)
        decreases f
      {
        DownLeft(path, base, f, root, mem);
        elm := mem[elm].left;
        path, f := InL(f.n, f.c, f.r, path), f.l;
      }
      assert Rep(f.l, f.n, mem);
    }

    // RB_REMOVE puts node elm into the place of `victim`, whose left subtree is not empty.
    method Replace(elm: Ref, victim: Ref, ghost x: Ctx, ghost t: Tree)
      requires t.Nd? && t.n == victim && t.l.Nd? && Zip(x, t, root, mem)
      requires elm != NULL && elm in mem && t.n.key < elm.key && Below(elm.key, Hi(x))
      requires Ord(t.r, At(elm.key), Hi(x))
      modifies this`root, this`mem
      ensures Zip(x, Nd(t.l, elm, t.c, t.r), root, mem)
      ensures Except({elm} + Root1(t.l) + Root1(t.r) + Parent1(x), old(mem), mem)
    {
      ReplaceFacts(elm, x, t, root, mem);
      mem := mem[elm := mem[victim]];
      ReplaceChild(mem[victim].parent, victim, elm, x);
      var l, r := mem[victim].left, mem[victim].right;
      mem := mem[l := mem[l].(parent := elm)];
      if r != NULL {
        mem := mem[r := mem[r].(parent := elm)];
      }
      ReplaceRep(x, t, elm, old(root), root, old(mem), mem);
    }

    // RB_REMOVE of a node with two children.
    method RemoveInner(victim: Ref, ghost x: Ctx, ghost t: Tree) returns (ghost t': Tree)
      requires t.Nd? && t.n == victim && t.l.Nd? && t.r.Nd? && Zip(x, t, root, mem) && Balanced(x, t)
      modifies this`root, this`mem
      ensures Zip(Top, t', root, mem) && Balanced(Top, t') && Removed(Items(x, t), victim, InOrder(t'))
      ensures Except(Refs(Items(x, t)), old(mem), mem)
    {
      ghost var path, f;
      var elm;
      elm, path, f := Successor(victim, x, t);
      ghost var base, base' := InR(t.l, t.n, t.c, x), InR(t.l, f.n, t.c, x);
      SuccessorItems(x, t, path, f);
      SuccessorBalance(x, t, path, f);
      var child, parent, color := mem[elm].right, mem[elm].parent, mem[elm].color;
      parent := ReplaceBySuccessor(elm, child, parent, victim, x, t, path, f);
      if color == Black {
        t' := RemoveColor(parent, child, Append(path, base'), f.r);
      } else {
        t' := Plug(Append(path, base'), f.r);
        FocusUp(Append(path, base'), Top, f.r, root, mem);
        AppendTop(Append(path, base'));
        BalancedUp(Append(path, base'), Top, f.r);
        assert Items(Top, t') == InOrder(t');
      }
    }

    // The successor elm is unlinked; its own cell keeps its old contents.
    method UnlinkSuccessor(elm: Ref, child: Ref, parent: Ref,
                           ghost x: Ctx, ghost t: Tree, ghost path: Ctx, ghost f: Tree)
      requires t.Nd? && f.Nd? && f.n == elm && f.l.Leaf? && child == RootOf(f.r)
      requires var y := Append(path, InR(t.l, t.n, t.c, x));
               Zip(y, f, root, mem) && parent == Parent(y) && Items(y, f) == Items(x, t)
      modifies this`root, this`mem
      ensures var t1 := Nd(t.l, t.n, t.c, Plug(path, f.r));
              Zip(x, t1, root, mem) && Refs(Items(x, t1)) <= Refs(Items(x, t))
      ensures elm in mem && mem[elm] == old(mem)[elm] && Except(Refs(Items(x, t)), old(mem), mem)
    {
      ghost var base, r := InR(t.l, t.n, t.c, x), Plug(path, f.r);
      ghost var y := Append(path, base);
      assert Rep(f.r, f.n, mem) && Ord(f.r, At(f.n.key), Hi(y));
      RootInside(f.r, At(f.n.key), Hi(y));
      ParentOutside(y);
      KidRefs(y, f);
      ParentRef(y, f);
      Splice(elm, child, parent, y, f, f.r);
      SpliceItems(y, f, f.r);
      FocusUp(path, base, f.r, root, mem);
      FocusR(t.l, t.n, t.c, x, r, root, mem);
    }

    // The successor elm is unlinked and then takes the place of `victim`.
    method ReplaceBySuccessor(elm: Ref, child: Ref, parent0: Ref, victim: Ref,
                              ghost x: Ctx, ghost t: Tree, ghost path: Ctx, ghost f: Tree) returns (parent: Ref)
      requires t.Nd? && t.n == victim && t.l.Nd? && Zip(x, t, root, mem)
      requires f.Nd? && f.n == elm && f.l.Leaf? && LeftSpine(path) && child == RootOf(f.r)
      requires elm in mem && parent0 == mem[elm].parent
      requires var y := Append(path, InR(t.l, t.n, t.c, x)); Zip(y, f, root, mem) && Items(y, f) == Items(x, t)
      modifies this`root, this`mem
      ensures var y' := Append(path, InR(t.l, f.n, t.c, x)); Zip(y', f.r, root, mem) && parent == Parent(y')
      ensures Except(Refs(Items(x, t)), old(mem), mem)
    {
      parent := parent0;
      ghost var r := Plug(path, f.r);
      ghost var t1 := Nd(t.l, t.n, t.c, r);
      ReplaceOrder(x, t, path, f, root, mem);
      UnlinkSuccessor(elm, child, parent, x, t, path, f);
      if mem[elm].parent == victim {
        parent := elm;
      }
      KidRefs(x, t1);
      ParentRef(x, t1);
      Replace(elm, victim, x, t1);
      FocusR(t.l, f.n, t.c, x, r, root, mem);
      FocusUp(path, InR(t.l, f.n, t.c, x), f.r, root, mem);
      KidRefs(Append(path, InR(t.l, t.n, t.c, x)), f);
    }

    /** RB_REMOVE */
    method Remove(elm: Ref) returns (victim: Ref)
      requires Valid() && elm in Refs(Contents())
      modifies this
      ensures Valid() && victim == elm && Removed(old(Contents()), elm, Contents())
      ensures Except(old(Refs(Contents())), old(mem), mem)
    {
      ghost var i :| 0 <= i < |Contents()| && Contents()[i] == elm;
      ghost var x, t := Locate(Top, tree, i, root, mem);
      assert Items(Top, tree) == Contents();
      victim := elm;
      tree := RemoveFocus(elm, x, t);
    }

    method RemoveFocus(elm: Ref, ghost x: Ctx, ghost t: Tree) returns (ghost t': Tree)
      requires t.Nd? && t.n == elm && Zip(x, t, root, mem) && Balanced(x, t)
      modifies this`root, this`mem
      ensures Zip(Top, t', root, mem) && Balanced(Top, t') && Removed(Items(x, t), elm, InOrder(t'))
      ensures Except(Refs(Items(x, t)), old(mem), mem)
    {
      assert Rep(t.l, t.n, mem) && Rep(t.r, t.n, mem);
      if mem[elm].left == NULL {
        SpliceItems(x, t, t.r);
        t' := RemoveSimple(elm, mem[elm].right, x, t, t.r);
      } else if mem[elm].right == NULL {
        SpliceItems(x, t, t.l);
        t' := RemoveSimple(elm, mem[elm].left, x, t, t.l);
      } else {
        t' := RemoveInner(elm, x, t);
      }
    }

    /** RB_FIND */
    method Find(key: int) returns (r: Ref)
      requires Valid()
      ensures r != NULL ==> r in Contents() && r.key == key
      ensures r == NULL ==> !HasKey(Contents(), key)
    {
      ghost var x, t := Top, tree;
      var tmp := root;
      while tmp != NULL
        invariant Zip(x, t, root, mem) && Items(x, t) == Contents() && tmp == RootOf(t) && Inside(Lo(x), key, Hi(x))
        decreases t
      {
        var comp := key - tmp.key;
        if comp < 0 {
          FocusL(t.n, t.c, t.r, x, t.l, root, mem);
          tmp := mem[tmp].left;
          x, t := InL(t.n, t.c, t.r, x), t.l;
        } else if comp > 0 {
          FocusR(t.l, t.n, t.c, x, t.r, root, mem);
          tmp := mem[tmp].right;
          x, t := InR(t.l, t.n, t.c, x), t.r;
        } else {
          assert Items(x, t)[|Before(x)| + |InOrder(t.l)|] == t.n;
          return tmp;
        }
      }
      SearchBounds(x, key);
      r := NULL;
    }

    /** RB_NFIND: the first node with a key not below the search key */
    method NFind(key: int) returns (r: Ref, ghost i: nat)
      requires Valid()
      ensures FirstFrom(Contents(), key, r, i)
    {
      ghost var x, t := Top, tree;
      var tmp := root;
      r := NULL;
      while tmp != NULL
        invariant Zip(x, t, root, mem) && Items(x, t) == Contents() && tmp == RootOf(t) && Inside(Lo(x), key, Hi(x))
        invariant r == First(After(x))
        decreases t
      {
        var comp := key - tmp.key;
        if comp < 0 {
          r := tmp;
          FocusL(t.n, t.c, t.r, x, t.l, root, mem);
          tmp := mem[tmp].left;
          x, t := InL(t.n, t.c, t.r, x), t.l;
        } else if comp > 0 {
          FocusR(t.l, t.n, t.c, x, t.r, root, mem);
          tmp := mem[tmp].right;
          x, t := InR(t.l, t.n, t.c, x), t.r;
        } else {
          i := |Before(x)| + |InOrder(t.l)|;
          FocusAt(x, t);
          InBounds(tree, Inf, Inf);
          return tmp, i;
        }
      }
      NoneAt(x, key);
      i := |Before(x)|;
    }

    /** RB_MINMAX: the first node for a negative value, the last one otherwise */
    method MinMax(val: int) returns (parent: Ref)
      requires Valid()
      ensures var s := Contents();
              parent == if s == [] then NULL else if val < 0 then s[0] else s[|s| - 1]
    {
      ghost var x, t := Top, tree;
      var tmp := root;
      parent := NULL;
      while tmp != NULL
        invariant Zip(x, t, root, mem) && Items(x, t) == Contents() && tmp == RootOf(t)
        invariant val < 0 ==> Before(x) == [] && parent == if After(x) == [] then NULL else After(x)[0]
        invariant val >= 0 ==>
                    After(x) == [] && parent == if Before(x) == [] then NULL else Before(x)[|Before(x)| - 1]
        decreases t
      {
        parent := tmp;
        if val < 0 {
          FocusL(t.n, t.c, t.r, x, t.l, root, mem);
          tmp := mem[tmp].left;
          x, t := InL(t.n, t.c, t.r, x), t.l;
        } else {
          FocusR(t.l, t.n, t.c, x, t.r, root, mem);
          tmp := mem[tmp].right;
          x, t := InR(t.l, t.n, t.c, x), t.r;
        }
      }
    }

    // The part of RB_NEXT that climbs by parent links.
    method NextUp(elm0: Ref, ghost i: nat, ghost x0: Ctx, ghost t0: Tree) returns (elm: Ref)
      requires t0.Nd? && elm0 == t0.n && Zip(x0, t0, root, mem) && Items(x0, t0) == Contents()
      requires |Before(x0)| + |InOrder(t0)| == i + 1
      ensures elm == if i + 1 < |Contents()| then Contents()[i + 1] else NULL
    {
      ghost var x, t := x0, t0;
      elm := elm0;
      KidSide(x, t, root, mem);
      if mem[elm].parent != NULL && elm == mem[mem[elm].parent].left {
        elm := mem[elm].parent;
      } else {
        while mem[elm].parent != NULL && elm == mem[mem[elm].parent].right
          invariant t.Nd? && elm == t.n && Zip(x, t, root, mem) && Items(x, t) == Contents()
          invariant |Before(x)| + |InOrder(t)| == i + 1
          decreases x
        {
          KidSide(x, t, root, mem);
          Focus(x, t, root, mem);
          elm := mem[elm].parent;
          x, t := x.up, PlugOne(x, t);
        }
        KidSide(x, t, root, mem);
        elm := mem[elm].parent;
      }
      if x.InL? {
        assert After(x)[0] == x.n;
        assert Items(x, t)[i + 1] == x.n;
      }
    }

    // The part of RB_NEXT that goes down from a child.
    method NextDown(elm0: Ref, ghost i: nat, ghost x0: Ctx, ghost t0: Tree) returns (elm: Ref)
      requires t0.Nd? && elm0 == t0.n && Zip(x0, t0, root, mem) && Items(x0, t0) == Contents()
      requires |Before(x0)| == i + 1
      ensures i + 1 < |Contents()| && elm == Contents()[i + 1]
    {
      ghost var x, t := x0, t0;
      elm := elm0;
      while mem[elm].left != NULL
        invariant t.Nd? && elm == t.n && Zip(x, t, root, mem) && Items(x, t) == Contents()
        invariant |Before(x)| == i + 1
        decreases t
      {
        FocusL(t.n, t.c, t.r, x, t.l, root, mem);
        elm := mem[elm].left;
        x, t := InL(t.n, t.c, t.r, x), t.l;
      }
      assert Rep(t.l, t.n, mem);
      assert InOrder(t.l) == [];
      assert Items(x, t)[i + 1] == t.n;
    }

    /** RB_NEXT: from the i-th node to the next one, by child and parent links only */
    method Next(elm0: Ref, ghost i: nat) returns (elm: Ref)
      requires Valid() && i < |Contents()| && Contents()[i] == elm0
      ensures elm == if i + 1 < |Contents()| then Contents()[i + 1] else NULL
    {
      assert Items(Top, tree) == Contents();
      ghost var x, t := Locate(Top, tree, i, root, mem);
      elm := elm0;
      assert Rep(t.r, t.n, mem);
      if mem[elm].right != NULL {
        FocusR(t.l, t.n, t.c, x, t.r, root, mem);
        elm := mem[elm].right;
        x, t := InR(t.l, t.n, t.c, x), t.r;
        elm := NextDown(elm, i, x, t);
      } else {
        elm := NextUp(elm, i, x, t);
      }
    }

    // The part of RB_PREV that climbs by parent links.
    method PrevUp(elm0: Ref, ghost i: nat, ghost x0: Ctx, ghost t0: Tree) returns (elm: Ref)
      requires t0.Nd? && elm0 == t0.n && Zip(x0, t0, root, mem) && Items(x0, t0) == Contents()
      requires |Before(x0)| == i
      ensures elm == if i > 0 then Contents()[i - 1] else NULL
    {
      ghost var x, t := x0, t0;
      elm := elm0;
      KidSide(x, t, root, mem);
      if mem[elm].parent != NULL && elm == mem[mem[elm].parent].right {
        elm := mem[elm].parent;
      } else {
        while mem[elm].parent != NULL && elm == mem[mem[elm].parent].left
          invariant t.Nd? && elm == t.n && Zip(x, t, root, mem) && Items(x, t) == Contents()
          invariant |Before(x)| == i
          decreases x
        {
          KidSide(x, t, root, mem);
          Focus(x, t, root, mem);
          elm := mem[elm].parent;
          x, t := x.up, PlugOne(x, t);
        }
        KidSide(x, t, root, mem);
        elm := mem[elm].parent;
      }
      if x.InR? {
        assert Before(x)[i - 1] == x.n;
        assert Items(x, t)[i - 1] == x.n;
      }
    }

    // The part of RB_PREV that goes down from a child.
    method PrevDown(elm0: Ref, ghost i: nat, ghost x0: Ctx, ghost t0: Tree) returns (elm: Ref)
      requires t0.Nd? && elm0 == t0.n && Zip(x0, t0, root, mem) && Items(x0, t0) == Contents()
      requires |Before(x0)| + |InOrder(t0)| == i
      ensures i > 0 && elm == Contents()[i - 1]
    {
      ghost var x, t := x0, t0;
      elm := elm0;
      while mem[elm].right != NULL
        invariant t.Nd? && elm == t.n && Zip(x, t, root, mem) && Items(x, t) == Contents()
        invariant |Before(x)| + |InOrder(t)| == i
        decreases t
      {
        FocusR(t.l, t.n, t.c, x, t.r, root, mem);
        elm := mem[elm].right;
        x, t := InR(t.l, t.n, t.c, x), t.r;
      }
      assert Rep(t.r, t.n, mem);
      assert InOrder(t.r) == [];
      assert Items(x, t)[i - 1] == t.n;
    }

    /** RB_PREV: from the i-th node to the one before */
    method Prev(elm0: Ref, ghost i: nat) returns (elm: Ref)
      requires Valid() && i < |Contents()| && Contents()[i] == elm0
      ensures elm == if i > 0 then Contents()[i - 1] else NULL
    {
      assert Items(Top, tree) == Contents();
      ghost var x, t := Locate(Top, tree, i, root, mem);
      elm := elm0;
      assert Rep(t.l, t.n, mem);
      if mem[elm].left != NULL {
        FocusL(t.n, t.c, t.r, x, t.l, root, mem);
        elm := mem[elm].left;
        x, t := InL(t.n, t.c, t.r, x), t.l;
        elm := PrevDown(elm, i, x, t);
      } else {
        elm := PrevUp(elm, i, x, t);
      }
    }

    /** RB_FOREACH: every node once, in ascending key order */
    method ForEach() returns (visited: seq<Ref>)
      requires Valid()
      ensures |visited| == |Contents()| && forall i :: 0 <= i < |visited| ==> visited[i] == Contents()[i]
      ensures Sorted(Contents())
    {
      visited := [];
      InBounds(tree, Inf, Inf);
      var x := MinMax(-1);
      ghost var i := 0;
      while x != NULL
        invariant i == |visited| <= |Contents()|
        invariant forall j :: 0 <= j < i ==> visited[j] == Contents()[j]
        invariant x == if i < |Contents()| then Contents()[i] else NULL
        decreases |Contents()| - i
      {
        visited := visited + [x];
        x := Next(x, i);
        i := i + 1;
      }
      if i < |Contents()| { RefIn(tree, NULL, mem, i); }
    }

    /** Any sequence of insertions and removals plays a finite set of nodes with distinct keys. */
    method Run(ops: seq<Op>)
      requires Valid() && forall i :: 0 <= i < |ops| && ops[i].Ins? ==> ops[i].elm != NULL && ops[i].elm in mem
      modifies this
      ensures Valid() && Sorted(Contents())
      ensures Refs(Contents()) == Play(ops, old(Refs(Contents())))
    {
      InBounds(tree, Inf, Inf);
      ghost var model := Refs(Contents());
      for i := 0 to |ops|
        invariant Valid() && Sorted(Contents()) && mem.Keys == old(mem.Keys)
        invariant Refs(Contents()) == Play(ops[..i], model)
      {
        assert ops[..i + 1][..i] == ops[..i];
        RunOne(ops[i]);
      }
      assert ops[..|ops|] == ops;
    }

    method RunOne(op: Op)
      requires Valid() && Sorted(Contents()) && (op.Ins? ==> op.elm != NULL && op.elm in mem)
      modifies this
      ensures Valid() && Sorted(Contents()) && mem.Keys == old(mem.Keys)
      ensures Refs(Contents()) == PlayOne(op, old(Refs(Contents())))
    {
      if op.Ins? {
        HasKeyRefs(Contents(), op.elm.key);
        var r := Insert(op.elm);
        if r == NULL { InsertedRefs(old(Contents()), op.elm, Contents()); }
        InBounds(tree, Inf, Inf);
      } else {
        RemoveKey(op.key);
      }
    }

    // RB_FIND and RB_REMOVE together.
    method RemoveKey(key: int)
      requires Valid() && Sorted(Contents())
      modifies this
      ensures Valid() && Sorted(Contents()) && mem.Keys == old(mem.Keys)
      ensures Refs(Contents()) == set n | n in old(Refs(Contents())) && n.key != key
    {
      var n := Find(key);
      if n != NULL {
        var v := Remove(n);
        RemovedRefs(old(Contents()), n, Contents());
        InBounds(tree, Inf, Inf);
      } else {
        NoKey(Contents(), key);
      }
    }
  }
}
