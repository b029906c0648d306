/** The futex list of src/sched/futex.c, down to the SLIST macros of src/include/queue.h.

    Every lthread embeds one futex_q, so an lthread's address also names its list node. The memory of the
    futex_q structs is kept in two maps, `next` for the list links and `fq` for the other fields. What
    futex_wake, futex_requeue and futex_tick do is stated about the sequence of lthreads on the list. `asked`,
    what each sleeper asked for, is history. */
module FutexList {
  import opened Basics
  import opened Words

  type Ptr = nat

  const NULL: Ptr := 0
  const W: nat := 0x1_0000_0000

  const CLOCK_REALTIME: nat := 0
  const CLOCK_MONOTONIC: nat := 1

  datatype Fq = Fq(key: nat, bits: nat, deadline: nat, clock: nat, lt: Ptr)

  function Flag(b: bool): nat { if b then 1 else 0 }

  const EINVAL: int := 22
  const ENOSYS: int := 38

  datatype Cmd = Refused | WaitOp | WakeOp | RequeueOp | CmpRequeue | WaitBitset | WakeBitset | Unknown

  // The private flag is ignored. The real-time flag is refused unless the command has a bit in common
  // with FUTEX_WAIT_BITSET; FUTEX_WAIT itself is 0 and has none.
  function Decode(op: bv32): Cmd {
    var op' := op & 0xffff_ff7f;
    if op' & 0x100 != 0 && op' & 9 == 0 then Refused
    else
      var c := op' & 0xffff_feff;
      if c == 0 then WaitOp
      else if c == 1 then WakeOp
      else if c == 3 then RequeueOp
      else if c == 4 then CmpRequeue
      else if c == 9 then WaitBitset
      else if c == 10 then WakeBitset
      else Unknown
  }

  function ClockOf(op: bv32): nat { if op & 0x100 != 0 then CLOCK_REALTIME else CLOCK_MONOTONIC }

  predicate IsInt(x: int) { -0x8000_0000 <= x < 0x8000_0000 }

  function Unsigned(x: int): nat
    requires IsInt(x)
  {
    if x < 0 then x + W else x
  }

  lemma UnsignedMod(x: int)
    requires IsInt(x)
    ensures Unsigned(x) == x % W
  {}

  function BitsOf(cmd: Cmd, val3: int): nat
    requires IsInt(val3)
  {
    if cmd.WaitBitset? || cmd.WakeBitset? then Unsigned(val3) else 0xffff_ffff
  }

  predicate NoBits(cmd: Cmd, val3: int) { (cmd.WaitBitset? || cmd.WakeBitset?) && val3 == 0 }

  // Where the time-out of a command starts.
  function Start(cmd: Cmd, now: nat): nat { if cmd.WaitOp? then now else 0 }

  // ---- the command words --------------------------------------------------------------------------------------

  /** The words with which each command is called: with or without the private flag 0x80 and, where it is accepted,
      the real-time flag 0x100. That flag is refused, before the lock is taken, in a word that has no bit in
      common with 9, which is FUTEX_WAIT_BITSET; FUTEX_WAIT itself is 0. */
  ghost function CommandOf(op: bv32): Cmd {
    if op == 0 || op == 0x80 then WaitOp
    else if op == 1 || op == 0x81 || op == 0x101 || op == 0x181 then WakeOp
    else if op == 3 || op == 0x83 || op == 0x103 || op == 0x183 then RequeueOp
    else if op == 4 || op == 0x84 then CmpRequeue
    else if op == 9 || op == 0x89 || OnRealTime(op) then WaitBitset
    else if op == 0xa || op == 0x8a || op == 0x10a || op == 0x18a then WakeBitset
    else if op & 0x100 != 0 && op & 9 == 0 then Refused
    else Unknown
  }

  ghost predicate OnRealTime(op: bv32) { op == 0x109 || op == 0x189 }

  // The words that are left with c when both flags are masked out.
  lemma MaskFlags(op: bv32, c: bv32)
    requires c & 0x180 == 0
    ensures (op & 0xffff_ff7f) & 0xffff_feff == c <==>
            op == c || op == c | 0x80 || op == c | 0x100 || op == c | 0x180
  {}

  // The private flag does not matter to the test of the real-time flag.
  lemma MaskPrivate(op: bv32)
    ensures (op & 0xffff_ff7f) & 0x100 == op & 0x100 && (op & 0xffff_ff7f) & 9 == op & 9
  {}

  lemma DecodeWord(op: bv32)
    ensures Decode(op) == CommandOf(op)
  {
    MaskPrivate(op);
    MaskFlags(op, 0);
    MaskFlags(op, 1);
    MaskFlags(op, 3);
    MaskFlags(op, 4);
    MaskFlags(op, 9);
    MaskFlags(op, 0xa);
  }

  lemma ClockWord(op: bv32)
    requires CommandOf(op).WaitOp? || CommandOf(op).WaitBitset?
    ensures ClockOf(op) == if OnRealTime(op) then 0 else 1
  {}

  // What a waiter's node contains when it goes to sleep.
  ghost function Waiter(self: Ptr, key: nat, bits: nat, ts: Option<nat>, clock: nat, now: nat): Fq {
    if ts.Some? then Fq(key, bits, now + ts.value, clock, self) else Fq(key, bits, 0, 1, self)
  }

  // When the time-out of a wait command ends: FUTEX_WAIT takes it as relative, and FUTEX_WAIT_BITSET as absolute.
  ghost function End(op: bv32, ts: nat, now: nat): nat { if CommandOf(op).WaitOp? then now + ts else ts }

  /** The node of the caller of a wait command that sleeps. */
  ghost function NewWaiter(self: Ptr, op: bv32, uaddr: nat, val3: int, ts: Option<nat>, now: nat): Fq {
    Fq(uaddr % W, if CommandOf(op).WaitOp? then 0xffff_ffff else val3 % W,
       if ts.Some? then End(op, ts.value, now) else 0, if ts.Some? && OnRealTime(op) then 0 else 1, self)
  }

  /** What a waiter asks for: not to be woken by time, or at the first tick at which the clock has reached a time. */
  datatype Ask = Never | Timed(time: nat, clock: nat)

  ghost function Asks(op: bv32, ts: Option<nat>, now: nat): Ask {
    if ts.Some? then Timed(End(op, ts.value, now), if OnRealTime(op) then 0 else 1) else Never
  }

  // Readings of the two clocks.
  datatype Times = Times(realtime: nat, mono: nat)

  // A sleeper with this node leaves the list at one of the ticks.
  ghost predicate Leaves(q: Fq, ticks: seq<Times>) { exists i :: 0 <= i < |ticks| && Due(q, ticks[i].mono) }

  lemma LeavesMore(q: Fq, before: seq<Times>, t: Times)
    ensures Leaves(q, before + [t]) <==> Leaves(q, before) || Due(q, t.mono)
  {
    var ticks := before + [t];
    if i :| 0 <= i < |before| && Due(q, before[i].mono) { assert Due(q, ticks[i].mono); }
    if Due(q, t.mono) { assert Due(q, ticks[|before|].mono); }
  }

  // It would leave at one of the ticks if it got what it asked for.
  ghost predicate Expected(ask: Ask, ticks: seq<Times>) {
    ask.Timed? && exists i :: 0 <= i < |ticks| && ask.time <= Reading(ticks[i], ask.clock)
  }

  ghost function Reading(t: Times, clock: nat): nat { if clock == CLOCK_REALTIME then t.realtime else t.mono }

  // Some bit is set in both words.
  ghost predicate Common(a: nat, b: nat) { exists j: nat :: Bit(a, j) && Bit(b, j) }

  lemma {:induction false} AndCommon(a: nat, b: nat)
    ensures And(a, b) != 0 <==> Common(a, b)
  {
    if And(a, b) != 0 {
      if a % 2 == 1 && b % 2 == 1 {
        assert Bit(a, 0) && Bit(b, 0);
      } else {
        AndCommon(a / 2, b / 2);
        var j: nat :| Bit(a / 2, j) && Bit(b / 2, j);
        assert Bit(a, j + 1) && Bit(b, j + 1);
      }
    } else if j: nat :| Bit(a, j) && Bit(b, j) {
      BitAnd(a, b, j);
      BitZero(j);
    }
  }

  // ---- sequences of lthreads ----------------------------------------------------------------------------

  // The members of l that are in sel, in order.
  ghost function Select(l: seq<Ptr>, sel: set<Ptr>): seq<Ptr> {
    if l == [] then []
    else
      var m := |l| - 1;
      Select(l[..m], sel) + if l[m] in sel then [l[m]] else []
  }

  // l without the members of xs, in order.
  ghost function Without(l: seq<Ptr>, xs: seq<Ptr>): seq<Ptr> {
    if l == [] then []
    else
      var m := |l| - 1;
      Without(l[..m], xs) + if l[m] in xs then [] else [l[m]]
  }

  ghost predicate Due(q: Fq, now: nat) { q.deadline != 0 && q.deadline <= now }

  // The members of l whose node matches, has the key, or is due.
  ghost function Matching(l: seq<Ptr>, fq: map<Ptr, Fq>, key: nat, bits: nat): set<Ptr> {
    set x | x in l && x in fq && fq[x].key == key && Common(fq[x].bits, bits)
  }

  ghost function WithKey(l: seq<Ptr>, fq: map<Ptr, Fq>, key: nat): set<Ptr> {
    set x | x in l && x in fq && fq[x].key == key
  }

  ghost function DueBy(l: seq<Ptr>, fq: map<Ptr, Fq>, now: nat): set<Ptr> {
    set x | x in l && x in fq && Due(fq[x], now)
  }

  lemma {:induction false} SelectIn(l: seq<Ptr>, sel: set<Ptr>, x: Ptr)
    ensures x in Select(l, sel) <==> x in l && x in sel
  {
    if l != [] {
      var m := |l| - 1;
      SelectIn(l[..m], sel, x);
      assert l == l[..m] + [l[m]];
    }
  }

  lemma {:induction false} WithoutIn(l: seq<Ptr>, xs: seq<Ptr>, x: Ptr)
    ensures x in Without(l, xs) <==> x in l && x !in xs
  {
    if l != [] {
      var m := |l| - 1;
      WithoutIn(l[..m], xs, x);
      assert l == l[..m] + [l[m]];
    }
  }

  // Dropping one more member that is not there changes nothing.
  lemma {:induction false} WithoutMore(l: seq<Ptr>, xs: seq<Ptr>, x: Ptr)
    requires x !in l
    ensures Without(l, xs + [x]) == Without(l, xs)
  {
    if l != [] {
      var m := |l| - 1;
      WithoutMore(l[..m], xs, x);
      assert l == l[..m] + [l[m]];
    }
  }

  // ---- one step along the list ----------------------------------------------------------------------------

  // The first n of the selected members of l[..k].
  ghost function Taken(l: seq<Ptr>, sel: set<Ptr>, n: nat, k: nat): seq<Ptr>
    requires k <= |l|
  {
    var s := Select(l[..k], sel);
    s[..Min(n, |s|)]
  }

  lemma SelectNext(l: seq<Ptr>, sel: set<Ptr>, k: nat)
    requires k < |l|
    ensures Select(l[..k + 1], sel) == Select(l[..k], sel) + if l[k] in sel then [l[k]] else []
  {
    assert l[..k + 1][..k] == l[..k];
  }

  lemma WithoutNext(l: seq<Ptr>, xs: seq<Ptr>, k: nat)
    requires k < |l|
    ensures Without(l[..k + 1], xs) == Without(l[..k], xs) + if l[k] in xs then [] else [l[k]]
  {
    assert l[..k + 1][..k] == l[..k];
  }

  // The next member is taken off ...
  lemma TakeNext(l: seq<Ptr>, sel: set<Ptr>, n: nat, k: nat)
    requires NoDup(l) && k < |l| && l[k] in sel && |Taken(l, sel, n, k)| < n
    ensures Taken(l, sel, n, k + 1) == Taken(l, sel, n, k) + [l[k]]
    ensures Without(l[..k + 1], Taken(l, sel, n, k + 1)) == Without(l[..k], Taken(l, sel, n, k))
  {
    SelectNext(l, sel, k);
    WithoutNext(l, Taken(l, sel, n, k + 1), k);
    WithoutMore(l[..k], Taken(l, sel, n, k), l[k]);
  }

  // ... or stays.
  lemma KeepNext(l: seq<Ptr>, sel: set<Ptr>, n: nat, k: nat)
    requires NoDup(l) && k < |l| && (l[k] !in sel || |Taken(l, sel, n, k)| >= n)
    ensures Taken(l, sel, n, k + 1) == Taken(l, sel, n, k)
    ensures Without(l[..k + 1], Taken(l, sel, n, k + 1)) == Without(l[..k], Taken(l, sel, n, k)) + [l[k]]
  {
    SelectNext(l, sel, k);
    WithoutNext(l, Taken(l, sel, n, k), k);
    SelectIn(l[..k], sel, l[k]);
    assert l[k] !in Select(l[..k], sel);
  }

  lemma {:induction false} SplitSize(l: seq<Ptr>, sel: set<Ptr>, n: nat, k: nat)
    requires NoDup(l) && k <= |l|
    ensures |Without(l[..k], Taken(l, sel, n, k))| + |Taken(l, sel, n, k)| == k
  {
    if k > 0 {
      SplitSize(l, sel, n, k - 1);
      if l[k - 1] in sel && |Taken(l, sel, n, k - 1)| < n {
        TakeNext(l, sel, n, k - 1);
      } else {
        KeepNext(l, sel, n, k - 1);
      }
    }
  }

  lemma TakenIn(l: seq<Ptr>, sel: set<Ptr>, n: nat, k: nat, x: Ptr)
    requires k <= |l| && x in Taken(l, sel, n, k)
    ensures x in l[..k] && x in sel
  {
    SelectIn(l[..k], sel, x);
    assert x in Select(l[..k], sel);
  }

  lemma {:induction false} SelectSize(l: seq<Ptr>, sel: set<Ptr>)
    ensures |Select(l, sel)| <= |l|
  {
    if l != [] { SelectSize(l[..|l| - 1], sel); }
  }

  // ---- nodes that change in place -----------------------------------------------------------------------------

  ghost function Moved(f: map<Ptr, Fq>, xs: seq<Ptr>, key2: nat): map<Ptr, Fq> {
    map x | x in f :: if x in xs then f[x].(key := key2) else f[x]
  }

  // What the two assignments in the expiry test leave in the clock field of a node with a deadline.
  ghost function Judged(q: Fq, mono: nat): Fq {
    if q.deadline == 0 then q else q.(clock := if q.deadline <= mono then CLOCK_MONOTONIC else CLOCK_REALTIME)
  }

  ghost function Ticked(f: map<Ptr, Fq>, xs: seq<Ptr>, mono: nat): map<Ptr, Fq> {
    map x | x in f :: if x in xs then Judged(f[x], mono) else f[x]
  }

  lemma MovedNext(f: map<Ptr, Fq>, xs: seq<Ptr>, key2: nat, x: Ptr)
    requires x in f && x !in xs
    ensures Moved(f, xs + [x], key2) == Moved(f, xs, key2)[x := f[x].(key := key2)]
  {}

  lemma TickedNext(f: map<Ptr, Fq>, l: seq<Ptr>, mono: nat, k: nat)
    requires k < |l| && l[k] in f && NoDup(l)
    ensures Ticked(f, l[..k + 1], mono) == Ticked(f, l[..k], mono)[l[k] := Judged(f[l[k]], mono)]
    ensures Ticked(f, l[..k], mono)[l[k]] == f[l[k]]
  {
    assert l[..k + 1] == l[..k] + [l[k]];
  }

  // ---- links ------------------------------------------------------------------------------------------------

  ghost function At(l: seq<Ptr>, i: nat): Ptr { if i < |l| then l[i] else NULL }

  ghost predicate Link(next: map<Ptr, Ptr>, l: seq<Ptr>, i: nat)
    requires i < |l|
  {
    l[i] in next && next[l[i]] == At(l, i + 1)
  }

  /** Following the links from first visits exactly the members of l, in order, and ends at NULL. */
  ghost predicate Chain(first: Ptr, next: map<Ptr, Ptr>, l: seq<Ptr>) {
    && first == At(l, 0) && NoDup(l) && NULL !in l
    && forall i :: 0 <= i < |l| ==> Link(next, l, i)
  }

  lemma ChainDrop(first: Ptr, next: map<Ptr, Ptr>, l: seq<Ptr>, i: nat)
    requires Chain(first, next, l) && i < |l|
    ensures var l' := l[..i] + l[i + 1..];
            Chain(At(l', 0), if i == 0 then next else next[l[i - 1] := At(l, i + 1)], l')
  {
    var l' := l[..i] + l[i + 1..];
    var next' := if i == 0 then next else next[l[i - 1] := At(l, i + 1)];
    forall k | 0 <= k < |l'| ensures Link(next', l', k) {
      assert Link(next, l, if k < i then k else k + 1);
    }
  }

  class Futexes {
    var first: Ptr
    var next: map<Ptr, Ptr>
    var fq: map<Ptr, Fq>
    var sleepers: int
    var err: map<Ptr, int>
    var sched: seq<Ptr>
    var locked: bool
    ghost var list: seq<Ptr>
    ghost var asked: map<Ptr, Ask>
    ghost var locks: nat
    ghost var unlocks: nat

    ghost predicate Owned(x: Ptr)
      reads this`fq
    {
      x in fq && fq[x].lt == x
    }

    /** The list is acyclic with distinct nodes, each node belongs to the lthread that embeds it, and
        the counter is the length of the list. */
    ghost predicate Valid()
      reads this
    {
      && Chain(first, next, list) && sleepers == |list|
      && forall x :: x in list ==> Owned(x)
    }

    constructor ()
      ensures Valid() && list == [] && sched == [] && !locked && locks == unlocks == 0
    {
      first, next, fq, sleepers, err, sched, list := NULL, map[], map[], 0, map[], [], [];
      locked, asked, locks, unlocks := false, map[], 0, 0;
    }

    // ticket_lock, when the lock is free
    method Lock()
      requires !locked
      modifies this`locked, this`locks
      ensures locked && locks == old(locks) + 1
    {
      locked, locks := true, locks + 1;
    }

    // ticket_unlock; also the yield callback of a sleeper
    method Unlock()
      requires locked
      modifies this`locked, this`unlocks
      ensures !locked && unlocks == old(unlocks) + 1
    {
      locked, unlocks := false, unlocks + 1;
    }

    // SLIST_INSERT_HEAD
    method InsertHead(e: Ptr)
      requires Chain(first, next, list) && e != NULL && e !in list
      modifies this`first, this`next, this`list
      ensures Chain(first, next, list) && list == [e] + old(list)
    {
      next := next[e := first];
      first := e;
      list := [e] + list;
      forall i | 0 <= i < |list| ensures Link(next, list, i) {
        if i > 0 { assert Link(old(next), old(list), i - 1); }
      }
    }

    // SLIST_REMOVE, which looks for the predecessor from the head
    method Remove(e: Ptr, ghost i: nat)
      requires Chain(first, next, list) && i < |list| && list[i] == e
      modifies this`first, this`next, this`list
      ensures Chain(first, next, list) && list == old(list[..i] + list[i + 1..])
    {
      ghost var l := list;
      assert Link(next, l, i);
      list := l[..i] + l[i + 1..];
      if first == e {
        first := next[first];
        ChainDrop(old(first), next, l, i);
      } else {
        var cur := first;
        ghost var j := 0;
        assert Link(next, l, j);
        while next[cur] != e
          invariant 0 <= j < i && cur == l[j] && Link(next, l, j)
          decreases i - j
          modifies {}
        {
          cur := next[cur];
          j := j + 1;
          assert Link(next, l, j);
        }
        assert j + 1 == i;
        next := next[cur := next[next[cur]]];
        ChainDrop(first, old(next), l, i);
      }
    }

    // The body of the three loops: the lthread of node x leaves the list and becomes runnable.
    method WakeNode(x: Ptr, reason: int, ghost i: nat)
      requires Chain(first, next, list) && i < |list| && list[i] == x && Owned(x)
      modifies this`first, this`next, this`list, this`fq, this`sleepers, this`err, this`sched
      ensures Chain(first, next, list) && list == old(list[..i] + list[i + 1..]) && sleepers == old(sleepers) - 1
      ensures fq == old(fq[x := fq[x].(lt := NULL)]) && err == old(err)[x := reason] && sched == old(sched) + [x]
    {
      var lt := fq[x].lt;
      fq := fq[x := fq[x].(lt := NULL)];
      sleepers := sleepers - 1;
      Remove(x, i);
      err := err[lt := reason];
      sched := sched + [lt];
    }

    // Where a loop stands that has looked at the first k members of l and taken off the first n selected:
    // `was` is the scheduler queue it started from, `f` what the nodes still on the list contain.
    ghost predicate Half(l: seq<Ptr>, f: map<Ptr, Fq>, was: seq<Ptr>, sel: set<Ptr>, n: nat, k: nat, reason: int)
      requires k <= |l|
      reads this
    {
      var taken := Taken(l, sel, n, k);
      && Chain(first, next, list) && NoDup(l) && NULL !in l
      && list == Without(l[..k], taken) + l[k..] && sleepers == |list| && sched == was + taken
      && (forall x :: x in taken ==> Told(x, reason))
      && (forall i :: 0 <= i < |l| ==> l[i] in taken || Same(f, l[i]))
    }

    ghost predicate Told(x: Ptr, reason: int)
      reads this`err
    {
      x in err && err[x] == reason
    }

    ghost predicate Same(f: map<Ptr, Fq>, x: Ptr)
      reads this`fq
    {
      x in f && x in fq && fq[x] == f[x] && f[x].lt == x
    }

    lemma Begin(sel: set<Ptr>, n: nat, reason: int)
      requires Valid()
      ensures Half(list, fq, sched, sel, n, 0, reason)
    {
      assert Without(list[..0], Taken(list, sel, n, 0)) == [];
      forall i | 0 <= i < |list| ensures Same(fq, list[i]) { assert list[i] in list && Owned(list[i]); }
    }

    lemma Current(l: seq<Ptr>, f: map<Ptr, Fq>, was: seq<Ptr>, sel: set<Ptr>, n: nat, k: nat, reason: int)
      requires k < |l| && Half(l, f, was, sel, n, k, reason)
      ensures var i := |Without(l[..k], Taken(l, sel, n, k))|; i < |list| && list[i] == l[k]
      ensures Same(f, l[k]) && l[k] in next && next[l[k]] == At(l, k + 1)
    {
      var i := |Without(l[..k], Taken(l, sel, n, k))|;
      assert Link(next, list, i);
      if l[k] in Taken(l, sel, n, k) { TakenIn(l, sel, n, k, l[k]); }
    }

    lemma Pass(l: seq<Ptr>, f: map<Ptr, Fq>, was: seq<Ptr>, sel: set<Ptr>, n: nat, k: nat, reason: int)
      requires k < |l| && Half(l, f, was, sel, n, k, reason)
      requires l[k] !in sel || |Taken(l, sel, n, k)| >= n
      ensures Half(l, f, was, sel, n, k + 1, reason) && |Taken(l, sel, n, k + 1)| == |Taken(l, sel, n, k)|
    {
      KeepNext(l, sel, n, k);
    }

    method Take(x: Ptr, reason: int,
                ghost l: seq<Ptr>, ghost f: map<Ptr, Fq>, ghost was: seq<Ptr>,
                ghost sel: set<Ptr>, ghost n: nat, ghost k: nat)
      requires k < |l| && Half(l, f, was, sel, n, k, reason) && x == l[k] && x in sel && |Taken(l, sel, n, k)| < n
      modifies this`first, this`next, this`list, this`fq, this`sleepers, this`err, this`sched
      ensures Half(l, f, was, sel, n, k + 1, reason) && |Taken(l, sel, n, k + 1)| == |Taken(l, sel, n, k)| + 1
    {
      Current(l, f, was, sel, n, k, reason);
      TakeNext(l, sel, n, k);
      WakeNode(x, reason, |Without(l[..k], Taken(l, sel, n, k))|);
    }

    // The loop is over.
    lemma Through(l: seq<Ptr>, f: map<Ptr, Fq>, was: seq<Ptr>, sel: set<Ptr>, n: nat, reason: int)
      requires Half(l, f, was, sel, n, |l|, reason)
      ensures var s := Select(l, sel); Done(l, f, was, s[..Min(n, |s|)], reason)
      ensures Valid()
    {
      assert l[..|l|] == l;
      var s := Select(l, sel);
      assert l[|l|..] == [];
      forall x | x in list ensures Same(f, x) && Owned(x) { WithoutIn(l, s[..Min(n, |s|)], x); }
    }

    /** The members of taken have left the list l and become runnable, in this order, with the given reason;
        the rest of the list is as it was, its nodes containing f. */
    ghost predicate Done(l: seq<Ptr>, f: map<Ptr, Fq>, was: seq<Ptr>, taken: seq<Ptr>, reason: int)
      reads this
    {
      && list == Without(l, taken) && sched == was + taken
      && (forall x :: x in taken ==> Told(x, reason))
      && (forall x :: x in list ==> Same(f, x))
    }

    // One turn of a loop: the current node is taken off if it is selected and there is room.
    method Turn(cur: Ptr, hit: bool, reason: int,
                ghost l: seq<Ptr>, ghost f: map<Ptr, Fq>, ghost was: seq<Ptr>,
                ghost sel: set<Ptr>, ghost n: nat, ghost k: nat)
      requires k < |l| && cur == l[k] && Half(l, f, was, sel, n, k, reason)
      requires hit <==> cur in sel && |Taken(l, sel, n, k)| < n
      modifies this`first, this`next, this`list, this`fq, this`sleepers, this`err, this`sched
      ensures Half(l, f, was, sel, n, k + 1, reason)
      ensures |Taken(l, sel, n, k + 1)| == |Taken(l, sel, n, k)| + if hit then 1 else 0
    {
      if hit {
        Take(cur, reason, l, f, was, sel, n, k);
      } else {
        Pass(l, f, was, sel, n, k, reason);
      }
    }

    method WakeTurn(cur: Ptr, key: nat, num: nat, bits: nat, w: nat,
                    ghost l: seq<Ptr>, ghost f: map<Ptr, Fq>, ghost was: seq<Ptr>, ghost sel: set<Ptr>, ghost k: nat)
      returns (cur': Ptr, w': nat)
      requires k < |l| && cur == l[k] && Half(l, f, was, sel, num, k, FUTEX_NONE)
      requires sel == Matching(l, f, key, bits) && w == |Taken(l, sel, num, k)| <= num
      modifies this`first, this`next, this`list, this`fq, this`sleepers, this`err, this`sched
      ensures Half(l, f, was, sel, num, k + 1, FUTEX_NONE)
      ensures cur' == At(l, k + 1) && w' == |Taken(l, sel, num, k + 1)| <= num
    {
      Current(l, f, was, sel, num, k, FUTEX_NONE);
      cur' := next[cur];
      AndCommon(fq[cur].bits, bits);
      var hit := fq[cur].key == key && And(fq[cur].bits, bits) != 0 && w < num;
      w' := if hit then w + 1 else w;
      Turn(cur, hit, FUTEX_NONE, l, f, was, sel, num, k);
    }

    /** futex_wake: exactly the first min(num, m) of the m matching sleepers, in list order, leave the list
        and become runnable, in that order; the others stay as and where they are. */
    method Wake(key: nat, num: nat, bits: nat) returns (w: nat)
      requires Valid()
      modifies this`first, this`next, this`list, this`fq, this`sleepers, this`err, this`sched
      ensures Valid()
      ensures var m := Select(old(list), Matching(old(list), old(fq), key, bits));
              && w == Min(num, |m|)
              && Done(old(list), old(fq), old(sched), m[..w], FUTEX_NONE)
    {
      ghost var l, f, was, sel := list, fq, sched, Matching(list, fq, key, bits);
      Begin(sel, num, FUTEX_NONE);
      var cur := first;
      ghost var k := 0;
      w := 0;
      while cur != NULL
        invariant 0 <= k <= |l| && cur == At(l, k) && w == |Taken(l, sel, num, k)| <= num
        invariant Half(l, f, was, sel, num, k, FUTEX_NONE)
        decreases |l| - k
      {
        cur, w := WakeTurn(cur, key, num, bits, w, l, f, was, sel, k);
        k := k + 1;
      }
      Through(l, f, was, sel, num, FUTEX_NONE);
      assert l[..|l|] == l;
    }

    // The current node changes in place.
    method Write(cur: Ptr, q: Fq,
                 ghost l: seq<Ptr>, ghost f: map<Ptr, Fq>, ghost was: seq<Ptr>,
                 ghost sel: set<Ptr>, ghost n: nat, ghost k: nat,
                 ghost reason: int)
      requires k < |l| && cur == l[k] && q.lt == cur && Half(l, f, was, sel, n, k, reason)
      modifies this`fq
      ensures Half(l, f[cur := q], was, sel, n, k, reason) && cur in fq && fq[cur] == q
    {
      fq := fq[cur := q];
    }

    // The expiry test of futex_tick. Its first assignment tests CLOCK_REALTIME itself, which is 0.
    method Expiry(q: Fq, realtime: nat, mono: nat) returns (q': Fq, expired: bool)
      ensures q' == Judged(q, mono) && (expired <==> Due(q, mono))
    {
      q', expired := q, false;
      if q.deadline != 0 {
        q' := q.(clock := Flag(CLOCK_REALTIME != 0 && q.deadline <= realtime));
        expired := q'.clock != 0;
        if !expired {
          q' := q'.(clock := Flag(CLOCK_MONOTONIC != 0 && q.deadline <= mono));
          expired := q'.clock != 0;
        }
      }
    }

    method TickTurn(cur: Ptr, realtime: nat, mono: nat,
                    ghost l: seq<Ptr>, ghost f: map<Ptr, Fq>, ghost was: seq<Ptr>, ghost sel: set<Ptr>, ghost k: nat)
      returns (cur': Ptr)
      requires k < |l| && cur == l[k] && sel == DueBy(l, f, mono)
      requires Half(l, Ticked(f, l[..k], mono), was, sel, |l|, k, FUTEX_EXPIRED)
      modifies this`first, this`next, this`list, this`fq, this`sleepers, this`err, this`sched
      ensures Half(l, Ticked(f, l[..k + 1], mono), was, sel, |l|, k + 1, FUTEX_EXPIRED)
      ensures cur' == At(l, k + 1)
    {
      ghost var g := Ticked(f, l[..k], mono);
      Current(l, g, was, sel, |l|, k, FUTEX_EXPIRED);
      TickedNext(f, l, mono, k);
      SelectSize(l[..k], sel);
      cur' := next[cur];
      var q, expired := Expiry(fq[cur], realtime, mono);
      Write(cur, q, l, g, was, sel, |l|, k, FUTEX_EXPIRED);
      Turn(cur, expired, FUTEX_EXPIRED, l, Ticked(f, l[..k + 1], mono), was, sel, |l|, k);
    }

    /** futex_tick, with the two clocks read before: exactly the sleepers whose deadline has passed by the
        monotonic clock leave the list, whatever clock they asked for. If the lock is taken nothing
        happens. */
    method Tick(realtime: nat, mono: nat)
      requires Valid()
      modifies this`first, this`next, this`list, this`fq, this`sleepers, this`err, this`sched
      modifies this`locked, this`locks, this`unlocks
      ensures Valid() && locked == old(locked) && locks - old(locks) == unlocks - old(unlocks) <= 1
      ensures locked ==> list == old(list) && fq == old(fq) && sched == old(sched) && err == old(err)
      ensures !locked ==> Done(old(list), Ticked(old(fq), old(list), mono), old(sched),
                               Select(old(list), DueBy(old(list), old(fq), mono)), FUTEX_EXPIRED)
    {
      if sleepers == 0 || locked { return; }
      Lock();
      TickLoop(realtime, mono);
      Unlock();
    }

    method TickLoop(realtime: nat, mono: nat)
      requires Valid()
      modifies this`first, this`next, this`list, this`fq, this`sleepers, this`err, this`sched
      ensures Valid()
      ensures Done(old(list), Ticked(old(fq), old(list), mono), old(sched),
                   Select(old(list), DueBy(old(list), old(fq), mono)), FUTEX_EXPIRED)
    {
      ghost var l, f, was, sel := list, fq, sched, DueBy(list, fq, mono);
      TickBegin(sel, mono);
      var cur := first;
      ghost var k := 0;
      while cur != NULL
        invariant 0 <= k <= |l| && cur == At(l, k)
        invariant Half(l, Ticked(f, l[..k], mono), was, sel, |l|, k, FUTEX_EXPIRED)
        decreases |l| - k
      {
        cur := TickTurn(cur, realtime, mono, l, f, was, sel, k);
        k := k + 1;
      }
      TickedThrough(l, f, was, sel, mono);
    }

    lemma TickBegin(sel: set<Ptr>, mono: nat)
      requires Valid()
      ensures Half(list, Ticked(fq, list[..0], mono), sched, sel, |list|, 0, FUTEX_EXPIRED)
    {
      Begin(sel, |list|, FUTEX_EXPIRED);
      assert Ticked(fq, list[..0], mono) == fq;
    }

    lemma TickedThrough(l: seq<Ptr>, f: map<Ptr, Fq>, was: seq<Ptr>, sel: set<Ptr>, mono: nat)
      requires Half(l, Ticked(f, l[..|l|], mono), was, sel, |l|, |l|, FUTEX_EXPIRED)
      ensures Valid() && Done(l, Ticked(f, l, mono), was, Select(l, sel), FUTEX_EXPIRED)
    {
      assert l[..|l|] == l;
      Through(l, Ticked(f, l, mono), was, sel, |l|, FUTEX_EXPIRED);
      SelectSize(l, sel);
      assert Select(l, sel)[..|Select(l, sel)|] == Select(l, sel);
    }

    // The node after k has been passed: with w counting both the woken and the moved.
    method RequeueTurn(cur: Ptr, key: nat, key2: nat, num: nat, cap: nat, w: nat,
                       ghost l: seq<Ptr>, ghost f: map<Ptr, Fq>, ghost was: seq<Ptr>, ghost sel: set<Ptr>, ghost k: nat)
      returns (cur': Ptr, w': nat)
      requires k < |l| && cur == l[k] && sel == WithKey(l, f, key)
      requires Half(l, Moved(f, MovedSoFar(l, sel, num, cap, k), key2), was, sel, num, k, FUTEX_NONE)
      requires w == Min(|Select(l[..k], sel)|, Max(num, cap))
      modifies this`first, this`next, this`list, this`fq, this`sleepers, this`err, this`sched
      ensures Half(l, Moved(f, MovedSoFar(l, sel, num, cap, k + 1), key2), was, sel, num, k + 1, FUTEX_NONE)
      ensures cur' == At(l, k + 1) && w' == Min(|Select(l[..k + 1], sel)|, Max(num, cap))
    {
      ghost var g := Moved(f, MovedSoFar(l, sel, num, cap, k), key2);
      Current(l, g, was, sel, num, k, FUTEX_NONE);
      Unmoved(l, sel, num, cap, k);
      MovedStep(l, f, sel, num, cap, k, key2);
      SelectNext(l, sel, k);
      cur' := next[cur];
      if fq[cur].key == key && w < num {
        w' := w + 1;
        Turn(cur, true, FUTEX_NONE, l, g, was, sel, num, k);
      } else if fq[cur].key == key && w < cap {
        w' := w + 1;
        Write(cur, fq[cur].(key := key2), l, g, was, sel, num, k, FUTEX_NONE);
        Turn(cur, false, FUTEX_NONE, l, Moved(f, MovedSoFar(l, sel, num, cap, k + 1), key2), was, sel, num, k);
      } else {
        w' := w;
        Turn(cur, false, FUTEX_NONE, l, g, was, sel, num, k);
      }
    }

    lemma RequeueBegin(sel: set<Ptr>, num: nat, cap: nat, key2: nat)
      requires Valid()
      ensures Half(list, Moved(fq, MovedSoFar(list, sel, num, cap, 0), key2), sched, sel, num, 0, FUTEX_NONE)
    {
      Begin(sel, num, FUTEX_NONE);
      assert Moved(fq, MovedSoFar(list, sel, num, cap, 0), key2) == fq;
    }

    /** futex_requeue: the first min(num, m) of the m sleepers with the key are woken and the next ones, up
        to num + limit in all, get the second key; order and all else stay. The sum is formed in 32 bits:
        when it wraps, nothing is moved beyond what it allows. */
    method Requeue(key: nat, key2: nat, num: nat, limit: nat) returns (w: nat)
      requires Valid() && num < W && limit < W
      modifies this`first, this`next, this`list, this`fq, this`sleepers, this`err, this`sched
      ensures Valid()
      ensures var m := Select(old(list), WithKey(old(list), old(fq), key));
              var n := Min(num, |m|);
              && w == Min(|m|, Max(num, (num + limit) % W))
              && Done(old(list), Moved(old(fq), m[n..w], key2), old(sched), m[..n], FUTEX_NONE)
    {
      var cap := (num + limit) % W;
      ghost var l, f, was, sel := list, fq, sched, WithKey(list, fq, key);
      RequeueBegin(sel, num, cap, key2);
      var cur := first;
      ghost var k := 0;
      w := 0;
      while cur != NULL
        invariant 0 <= k <= |l| && cur == At(l, k) && w == Min(|Select(l[..k], sel)|, Max(num, cap))
        invariant Half(l, Moved(f, MovedSoFar(l, sel, num, cap, k), key2), was, sel, num, k, FUTEX_NONE)
        decreases |l| - k
      {
        cur, w := RequeueTurn(cur, key, key2, num, cap, w, l, f, was, sel, k);
        k := k + 1;
      }
      assert l[..|l|] == l;
      Through(l, Moved(f, MovedSoFar(l, sel, num, cap, |l|), key2), was, sel, num, FUTEX_NONE);
    }

    /** futex_wait up to the point where the caller leaves the CPU: it joins the list, at its head, exactly
        if the word has the expected value. */
    method Wait(self: Ptr, key: nat, word: int, val: int, bits: nat, ts: Option<nat>, clock: nat, now: nat,
                ghost ask: Ask)
      returns (slept: bool)
      requires Valid() && self != NULL && self !in list
      modifies this`first, this`next, this`list, this`fq, this`sleepers, this`asked
      ensures Valid() && (slept <==> word == val)
      ensures !slept ==> list == old(list) && fq == old(fq) && asked == old(asked)
      ensures slept ==> && list == [self] + old(list) && fq == old(fq)[self := Waiter(self, key, bits, ts, clock, now)]
                        && asked == old(asked)[self := ask]
    {
      slept := word == val;
      if slept {
        var q := Fq(key, bits, 0, CLOCK_MONOTONIC, self);
        fq := fq[self := q];
        InsertHead(self);
        sleepers := sleepers + 1;
        if ts.Some? {
          fq := fq[self := q.(clock := clock, deadline := now + ts.value)];
        }
        asked := asked[self := ask];
        forall x | x in list ensures Owned(x) { assert x != self ==> x in old(list) && old(Owned(x)); }
      }
    }

    // The test at the end of the wait commands: a result of futex_wait that a sleeper can have does not unlock.
    method WaitTail(rc: int)
      requires rc == 0 || rc == -ETIMEDOUT || locked
      modifies this`locked, this`unlocks
      ensures if rc == 0 || rc == -ETIMEDOUT then locked == old(locked) && unlocks == old(unlocks)
              else !locked && unlocks == old(unlocks) + 1
    {
      if rc == 0 || rc == -ETIMEDOUT { return; }
      Unlock();
    }

    /** What a sleeper does after it has been resumed: it reports a time-out exactly if that is the reason it was
        given, and leaves the lock, which others may hold by now, alone. */
    method AfterSleep(self: Ptr) returns (rc: int)
      requires self in err
      modifies this`locked, this`unlocks
      ensures rc == if err[self] == FUTEX_EXPIRED then -ETIMEDOUT else 0
      ensures locked == old(locked) && unlocks == old(unlocks)
    {
      rc := if err[self] == FUTEX_EXPIRED then -ETIMEDOUT else 0;
      WaitTail(rc);
    }

    ghost predicate Untouched(l: seq<Ptr>, f: map<Ptr, Fq>, was: seq<Ptr>)
      reads this
    {
      list == l && fq == f && sched == was
    }

    // The result rc and effect of waking: the first n matching sleepers, in the order of the list.
    ghost predicate Woke(l: seq<Ptr>, f: map<Ptr, Fq>, was: seq<Ptr>, key: nat, bits: nat, n: nat, rc: int)
      requires forall x :: x in l ==> x in f
      reads this
    {
      var m := Select(l, Matching(l, f, key, bits));
      rc == Min(n, |m|) && Done(l, f, was, m[..rc], FUTEX_NONE)
    }

    // The result rc and effect of requeueing: the first n sleepers on key are woken, the next ones go to key2.
    ghost predicate Requeued(l: seq<Ptr>, f: map<Ptr, Fq>, was: seq<Ptr>, key: nat, key2: nat, n: nat, limit: nat,
                             rc: int)
      requires forall x :: x in l ==> x in f
      reads this
    {
      var m := Select(l, WithKey(l, f, key));
      var woken := Min(n, |m|);
      && rc == Min(|m|, Max(n, (n + limit) % W))
      && Done(l, Moved(f, m[woken..rc], key2), was, m[..woken], FUTEX_NONE)
    }

    // The commands that never sleep, the lock being held
    method OtherCommand(cmd: Cmd, n: nat, limit: nat, key: nat, key2: nat, val3: int, word: int, rc0: int)
      returns (rc: int)
      requires Valid() && locked && n < W && limit < W && IsInt(val3)
      requires !NoBits(cmd, val3) && !cmd.Refused? && !cmd.WaitOp? && !cmd.WaitBitset?
      modifies this`first, this`next, this`list, this`fq, this`sleepers, this`err, this`sched
      ensures Valid()
      ensures cmd.WakeOp? || cmd.WakeBitset? ==> Woke(old(list), old(fq), old(sched), key, BitsOf(cmd, val3), n, rc)
      ensures cmd.RequeueOp? || (cmd.CmpRequeue? && word == val3) ==>
                Requeued(old(list), old(fq), old(sched), key, key2, n, limit, rc)
      ensures cmd.CmpRequeue? && word != val3 ==> rc == rc0 && Untouched(old(list), old(fq), old(sched))
      ensures cmd.Unknown? ==> rc == -ENOSYS && Untouched(old(list), old(fq), old(sched))
    {
      if cmd.WakeOp? || cmd.WakeBitset? {
        rc := Wake(key, n, BitsOf(cmd, val3));
      } else if cmd.CmpRequeue? && word != val3 {
        rc := rc0;
      } else if cmd.CmpRequeue? || cmd.RequeueOp? {
        rc := Requeue(key, key2, n, limit);
      } else {
        rc := -ENOSYS;
      }
    }

    // FUTEX_WAIT and FUTEX_WAIT_BITSET, the lock being held
    method WaitCommand(self: Ptr, op: bv32, val: int, ts: Option<nat>, uaddr: nat, val3: int, word: int, now: nat)
      returns (rc: int, slept: bool)
      requires Valid() && locked && self != NULL && self !in list && IsInt(val3)
      requires Decode(op).WaitOp? || Decode(op).WaitBitset?
      modifies this`first, this`next, this`list, this`fq, this`sleepers, this`asked, this`locked, this`unlocks
      ensures Valid() && locked == slept && unlocks == old(unlocks) + if slept then 0 else 1
      ensures slept <==> word == val
      ensures slept ==> && list == [self] + old(list)
                        && fq == old(fq)[self := NewWaiter(self, op, uaddr, val3, ts, now)]
                        && asked == old(asked)[self := Asks(op, ts, now)]
      ensures !slept ==> rc == -EAGAIN && list == old(list) && fq == old(fq)
    {
      var cmd := Decode(op);
      DecodeWord(op);
      ClockWord(op);
      slept := Wait(self, uaddr % W, word, val, BitsOf(cmd, val3), ts, ClockOf(op), Start(cmd, now), Asks(op, ts, now));
      rc := 0;
      if !slept {
        rc := -EAGAIN;
        WaitTail(rc);
      }
    }

    /** The futex system call up to its return or, for a waiter that sleeps, up to the point where it gives up the
        CPU, holding the lock still. On every other path the lock is free again, released once, or was never
        taken. rc0 stands for the uninitialised result that a failed FUTEX_CMP_REQUEUE comparison
        returns. */
    method Syscall(self: Ptr, op: bv32, val: int, ts: Option<nat>, limit: nat, uaddr: nat, uaddr2: nat, val3: int,
                   word: int, now: nat, rc0: int)
      returns (rc: int, slept: bool)
      requires Valid() && !locked && self != NULL && self !in list && limit < W && IsInt(val) && IsInt(val3)
      modifies this`first, this`next, this`list, this`fq, this`sleepers, this`err, this`sched, this`asked
      modifies this`locked, this`locks, this`unlocks
      ensures Valid() && locked == slept && locks == old(locks) + if CommandOf(op).Refused? then 0 else 1
      ensures unlocks == old(unlocks) + if CommandOf(op).Refused? || slept then 0 else 1
      ensures slept <==> (CommandOf(op).WaitOp? || (CommandOf(op).WaitBitset? && val3 != 0)) && word == val
      ensures slept ==> && list == [self] + old(list) && sched == old(sched)
                        && fq == old(fq)[self := NewWaiter(self, op, uaddr, val3, ts, now)]
                        && asked == old(asked)[self := Asks(op, ts, now)]
      ensures (CommandOf(op).WaitOp? || (CommandOf(op).WaitBitset? && val3 != 0)) && word != val ==>
                rc == -EAGAIN && Untouched(old(list), old(fq), old(sched))
      ensures CommandOf(op).WakeOp? ==> Woke(old(list), old(fq), old(sched), uaddr % W, 0xffff_ffff, val % W, rc)
      ensures CommandOf(op).WakeBitset? && val3 != 0 ==>
                Woke(old(list), old(fq), old(sched), uaddr % W, val3 % W, val % W, rc)
      ensures CommandOf(op).RequeueOp? || (CommandOf(op).CmpRequeue? && word == val3) ==>
                Requeued(old(list), old(fq), old(sched), uaddr % W, uaddr2 % W, val % W, limit, rc)
      ensures CommandOf(op).CmpRequeue? && word != val3 ==> rc == rc0 && Untouched(old(list), old(fq), old(sched))
      ensures (CommandOf(op).WaitBitset? || CommandOf(op).WakeBitset?) && val3 == 0 ==>
                rc == -EINVAL && Untouched(old(list), old(fq), old(sched))
      ensures CommandOf(op).Refused? || CommandOf(op).Unknown? ==>
                rc == -ENOSYS && Untouched(old(list), old(fq), old(sched))
    {
      DecodeWord(op);
      UnsignedMod(val);
      UnsignedMod(val3);
      rc, slept := Dispatch(Decode(op), self, op, val, ts, limit, uaddr, uaddr2, val3, word, now, rc0);
    }

    // The system call, the command word being decoded
    method Dispatch(cmd: Cmd, self: Ptr, op: bv32, val: int, ts: Option<nat>, limit: nat, uaddr: nat, uaddr2: nat,
                    val3: int, word: int, now: nat, rc0: int)
      returns (rc: int, slept: bool)
      requires cmd == Decode(op)
      requires Valid() && !locked && self != NULL && self !in list && limit < W && IsInt(val) && IsInt(val3)
      modifies this`first, this`next, this`list, this`fq, this`sleepers, this`err, this`sched, this`asked
      modifies this`locked, this`locks, this`unlocks
      ensures Valid() && locked == slept && locks == old(locks) + if cmd.Refused? then 0 else 1
      ensures unlocks == old(unlocks) + if cmd.Refused? || slept then 0 else 1
      ensures slept <==> (cmd.WaitOp? || cmd.WaitBitset?) && !NoBits(cmd, val3) && word == val
      ensures slept ==> && list == [self] + old(list) && sched == old(sched)
                        && fq == old(fq)[self := NewWaiter(self, op, uaddr, val3, ts, now)]
                        && asked == old(asked)[self := Asks(op, ts, now)]
      ensures (cmd.WaitOp? || cmd.WaitBitset?) && !NoBits(cmd, val3) && word != val ==>
                rc == -EAGAIN && Untouched(old(list), old(fq), old(sched))
      ensures (cmd.WakeOp? || cmd.WakeBitset?) && !NoBits(cmd, val3) ==>
                Woke(old(list), old(fq), old(sched), uaddr % W, BitsOf(cmd, val3), Unsigned(val), rc)
      ensures cmd.RequeueOp? || (cmd.CmpRequeue? && word == val3) ==>
                Requeued(old(list), old(fq), old(sched), uaddr % W, uaddr2 % W, Unsigned(val), limit, rc)
      ensures cmd.CmpRequeue? && word != val3 ==> rc == rc0 && Untouched(old(list), old(fq), old(sched))
      ensures NoBits(cmd, val3) ==> rc == -EINVAL && Untouched(old(list), old(fq), old(sched))
      ensures cmd.Refused? || cmd.Unknown? ==> rc == -ENOSYS && Untouched(old(list), old(fq), old(sched))
    {
      if cmd.Refused? { return -ENOSYS, false; }
      Lock();
      if NoBits(cmd, val3) {
        Unlock();
        return -EINVAL, false;
      }
      if cmd.WaitOp? || cmd.WaitBitset? {
        rc, slept := WaitCommand(self, op, val, ts, uaddr, val3, word, now);
        return;
      }
      slept := false;
      rc := OtherCommand(cmd, Unsigned(val), limit, uaddr % W, uaddr2 % W, val3, word, rc0);
      Unlock();
    }

    // ---- expiry -------------------------------------------------------------------------------------------------

    // Which members of l are left after the given ticks.
    ghost predicate Survivors(l: seq<Ptr>, f: map<Ptr, Fq>, ticks: seq<Times>)
      reads this`list, this`fq
    {
      && (forall x :: x in list <==> x in l && x in f && !Leaves(f[x], ticks))
      && (forall x :: x in list ==> x in fq && fq[x].deadline == f[x].deadline)
    }

    /** Any sequence of ticks, the lock being free: a sleeper is still there exactly if none of the monotonic
        readings has reached its deadline, however often the ticks have rewritten its clock field. */
    method Ticks(ticks: seq<Times>)
      requires Valid() && !locked
      modifies this`first, this`next, this`list, this`fq, this`sleepers, this`err, this`sched
      modifies this`locked, this`locks, this`unlocks
      ensures Valid() && !locked && Survivors(old(list), old(fq), ticks)
    {
      ghost var l, f := list, fq;
      assert forall x :: x in l ==> Owned(x);
      var i := 0;
      while i < |ticks|
        invariant i <= |ticks| && Valid() && !locked && Survivors(l, f, ticks[..i])
      {
        TickOnce(ticks[i], l, f, ticks[..i]);
        assert ticks[..i + 1] == ticks[..i] + [ticks[i]];
        i := i + 1;
      }
      assert ticks[..|ticks|] == ticks;
    }

    method TickOnce(t: Times, ghost l: seq<Ptr>, ghost f: map<Ptr, Fq>, ghost before: seq<Times>)
      requires Valid() && !locked && Survivors(l, f, before)
      modifies this`first, this`next, this`list, this`fq, this`sleepers, this`err, this`sched
      modifies this`locked, this`locks, this`unlocks
      ensures Valid() && !locked && Survivors(l, f, before + [t])
    {
      ghost var was, fwas := list, fq;
      Tick(t.realtime, t.mono);
      ghost var sel := DueBy(was, fwas, t.mono);
      forall x ensures x in list <==> x in was && x !in sel {
        WithoutIn(was, Select(was, sel), x);
        SelectIn(was, sel, x);
      }
      forall x | x in was ensures x in sel <==> Due(f[x], t.mono) {
        assert x in fwas && fwas[x].deadline == f[x].deadline;
      }
      forall x | x in l && x in f ensures Leaves(f[x], before + [t]) <==> Leaves(f[x], before) || Due(f[x], t.mono) {
        LeavesMore(f[x], before, t);
      }
    }
  }

  // The selected members of l[..k] that have been passed over by the wake part and moved.
  ghost function MovedSoFar(l: seq<Ptr>, sel: set<Ptr>, num: nat, cap: nat, k: nat): seq<Ptr>
    requires k <= |l|
  {
    var s := Select(l[..k], sel);
    s[Min(num, |s|)..Min(|s|, Max(num, cap))]
  }

  lemma Unmoved(l: seq<Ptr>, sel: set<Ptr>, num: nat, cap: nat, k: nat)
    requires NoDup(l) && k < |l|
    ensures l[k] !in MovedSoFar(l, sel, num, cap, k)
  {
    SelectIn(l[..k], sel, l[k]);
    assert l[k] !in Select(l[..k], sel);
  }

  lemma SliceGrows(s: seq<Ptr>, x: Ptr, num: nat)
    requires num <= |s|
    ensures (s + [x])[num..|s| + 1] == s[num..|s|] + [x]
  {}

  lemma MovedStep(l: seq<Ptr>, f: map<Ptr, Fq>, sel: set<Ptr>, num: nat, cap: nat, k: nat, key2: nat)
    requires NoDup(l) && k < |l| && l[k] in f
    ensures var s := Select(l[..k], sel);
            var was, now := MovedSoFar(l, sel, num, cap, k), MovedSoFar(l, sel, num, cap, k + 1);
            if l[k] in sel && num <= |s| < cap then
              Moved(f, now, key2) == Moved(f, was, key2)[l[k] := f[l[k]].(key := key2)]
            else now == was
  {
    SelectNext(l, sel, k);
    Unmoved(l, sel, num, cap, k);
    var s := Select(l[..k], sel);
    if l[k] in sel && num <= |s| < cap {
      SliceGrows(s, l[k], num);
      MovedNext(f, MovedSoFar(l, sel, num, cap, k), key2, l[k]);
    }
  }

  // ---- what the operations promise ----------------------------------------------------------------------------

  /** Sleepers are conserved: those taken off and those left add up, and nobody is both. */
  lemma Conserved(l: seq<Ptr>, sel: set<Ptr>, n: nat)
    requires NoDup(l) && n <= |Select(l, sel)|
    ensures var taken := Select(l, sel)[..n];
            && |Without(l, taken)| + |taken| == |l|
            && (forall x :: x in l <==> (x in taken || x in Without(l, taken)))
            && (forall x :: x in taken ==> x !in Without(l, taken))
  {
    var s := Select(l, sel);
    var taken := s[..n];
    SplitSize(l, sel, n, |l|);
    assert l[..|l|] == l;
    forall x ensures x in Without(l, taken) <==> x in l && x !in taken { WithoutIn(l, taken, x); }
    forall x | x in taken ensures x in l {
      assert x in s;
      SelectIn(l, sel, x);
    }
  }

  /** A wake asked for at least as many as there are leaves nobody who matches. */
  lemma FullWake(l: seq<Ptr>, f: map<Ptr, Fq>, key: nat, bits: nat)
    ensures Matching(Without(l, Select(l, Matching(l, f, key, bits))), f, key, bits) == {}
  {
    var sel := Matching(l, f, key, bits);
    forall x ensures x !in Matching(Without(l, Select(l, sel)), f, key, bits) {
      WithoutIn(l, Select(l, sel), x);
      SelectIn(l, sel, x);
    }
  }

  /** Whoever is left keeps its place: relative order is that of the old list, among those that match and
      among those that do not. */
  lemma {:induction false} OrderKept(l: seq<Ptr>, xs: seq<Ptr>, sel: set<Ptr>)
    ensures Select(Without(l, xs), sel) == Without(Select(l, sel), xs)
  {
    if l != [] {
      var m := |l| - 1;
      OrderKept(l[..m], xs, sel);
      var a, b := Without(l[..m], xs), Select(l[..m], sel);
      assert a + [] == a && b + [] == b;
      assert (a + [l[m]])[..|a|] == a && (b + [l[m]])[..|b|] == b;
    }
  }

  /** The total futex_requeue reports is the one documented, the first num woken and the next limit
      moved, if and only if num + limit fits in 32 bits or there is nobody left to move. */
  lemma RequeueTotal(m: nat, num: nat, limit: nat)
    requires num < W && limit < W
    ensures Min(m, Max(num, (num + limit) % W)) == Min(m, num + limit) <==> num + limit < W || m <= num
  {
    if num + limit >= W { assert (num + limit) % W == num + limit - W; }
  }

  /** Whatever the ticks read, a waiter leaves by time exactly when it asked to, if and only if it gave no time-out,
      or a time-out on another clock than the real-time one that does not end at time 0. */
  lemma AskedClock(self: Ptr, op: bv32, uaddr: nat, val3: int, ts: Option<nat>, now: nat)
    ensures (forall ticks: seq<Times> ::
               Leaves(NewWaiter(self, op, uaddr, val3, ts, now), ticks) <==> Expected(Asks(op, ts, now), ticks)) <==>
            ts.None? || (!OnRealTime(op) && End(op, ts.value, now) != 0)
  {
    var q, ask := NewWaiter(self, op, uaddr, val3, ts, now), Asks(op, ts, now);
    if ask.Timed? && (ask.clock == CLOCK_REALTIME || ask.time == 0) {
      var t := Times(ask.time, 0);
      OneTick(q, ask, t);
      assert Leaves(q, [t]) != Expected(ask, [t]);
    } else {
      forall ticks: seq<Times> ensures Leaves(q, ticks) <==> Expected(ask, ticks) { AsExpected(q, ask, ticks); }
    }
  }

  lemma AsExpected(q: Fq, ask: Ask, ticks: seq<Times>)
    requires if ask.Never? then q.deadline == 0
             else q.deadline == ask.time != 0 && ask.clock != CLOCK_REALTIME
    ensures Leaves(q, ticks) <==> Expected(ask, ticks)
  {
    if i :| 0 <= i < |ticks| && Due(q, ticks[i].mono) { assert q.deadline <= Reading(ticks[i], CLOCK_MONOTONIC); }
    if Expected(ask, ticks) {
      var i :| 0 <= i < |ticks| && ask.time <= Reading(ticks[i], ask.clock);
      assert Due(q, ticks[i].mono);
    }
  }

  lemma OneTick(q: Fq, ask: Ask, t: Times)
    ensures Expected(ask, [t]) <==> ask.Timed? && ask.time <= Reading(t, ask.clock)
    ensures Leaves(q, [t]) <==> Due(q, t.mono)
  {
    assert [t][0] == t;
  }

  lemma OnlyOne(l: seq<Ptr>, x: Ptr)
    requires NoDup(l) && forall y :: y in l <==> y == x
    ensures l == [x]
  {
    assert x in l;
    forall i | 0 <= i < |l| ensures l[i] == x { assert l[i] in l; }
    FitsIn(l, {x});
  }

  const WAIT_BITSET: bv32 := 9
  const WAIT_BITSET_REALTIME: bv32 := 0x109

  /** A waiter on the real-time clock with an absolute deadline, and a tick that comes after it on that clock but
      before it on the monotonic one: the waiter is still asleep. */
  method RealTimeMissed() returns (f: Futexes, t: Times)
    ensures f.list == [1] && 1 in f.asked && Expected(f.asked[1], [t])
  {
    f := new Futexes();
    var rc, slept := f.Syscall(1, WAIT_BITSET_REALTIME, 0, Some(1_600_000_000_000_000), 0, 64, 64, -1, 0, 7, 0);
    f.Unlock();
    t := Times(1_600_000_000_000_001, 5_000_000);
    OneTick(f.fq[1], f.asked[1], t);
    f.Ticks([t]);
    OnlyOne(f.list, 1);
  }

  /** A waiter with the absolute time-out 0, which is always past, sleeps through any ticks. */
  method ZeroTimeout(ticks: seq<Times>) returns (f: Futexes)
    ensures f.list == [1] && 1 in f.asked && (ticks != [] ==> Expected(f.asked[1], ticks))
  {
    f := new Futexes();
    var rc, slept := f.Syscall(1, WAIT_BITSET, 0, Some(0), 0, 64, 64, -1, 0, 7, 0);
    f.Unlock();
    f.Ticks(ticks);
    OnlyOne(f.list, 1);
    assert ticks != [] ==> 0 <= Reading(ticks[0], CLOCK_MONOTONIC);
  }
}
