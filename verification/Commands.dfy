/** What the futex commands, the ticks and the host calls of Lthreads do, from their first step to their last, in
    every run and whatever the others do in between. A futex command lasts from the step in which its lthread takes
    the futex lock to the one in which it releases it; a tick likewise. */
module Commands {
  import opened Basics
  import opened Lthreads

  // ---- lists of sleepers --------------------------------------------------------------------------------------

  // Whom a loop over the list looks for.
  datatype Pick = WithBits(key: nat, bits: bv32) | WithKey(key: nat) | DueAt(now: nat)

  ghost predicate Hits(p: Pick, e: Entry) {
    match p
    case WithBits(key, bits) => e.key == key && e.bits & bits != 0
    case WithKey(key) => e.key == key
    case DueAt(now) => e.deadline != 0 && e.deadline <= now
  }

  // The entries that are looked for, in order.
  ghost function Found(l: seq<Entry>, p: Pick): seq<Entry> {
    if l == [] then []
    else
      var m := |l| - 1;
      Found(l[..m], p) + if Hits(p, l[m]) then [l[m]] else []
  }

  /** The lthreads of the first n entries that are looked for. */
  ghost function FirstOf(l: seq<Entry>, p: Pick, n: nat): seq<Lt> {
    var found := Found(l, p);
    seq(Min(n, |found|), i requires 0 <= i < |found| => found[i].lt)
  }

  /** The list without the first n entries that are looked for, and with the second key in those after them, up to the
      cap-th. */
  ghost function Rest(l: seq<Entry>, p: Pick, n: nat, cap: nat, key2: nat): seq<Entry> {
    if l == [] then []
    else
      var m := |l| - 1;
      var before := |Found(l[..m], p)|;
      Rest(l[..m], p, n, cap, key2) +
      if !Hits(p, l[m]) then [l[m]]
      else if before < n then []
      else if before < cap then [l[m].(key := key2, requeued := true)]
      else [l[m]]
  }

  lemma FoundNext(l: seq<Entry>, p: Pick, q: nat)
    requires q < |l|
    ensures Found(l[..q + 1], p) == Found(l[..q], p) + if Hits(p, l[q]) then [l[q]] else []
  {
    assert l[..q + 1][..q] == l[..q];
  }

  lemma {:induction false} FoundSize(l: seq<Entry>, p: Pick)
    ensures |Found(l, p)| <= |l|
  {
    if l != [] { FoundSize(l[..|l| - 1], p); }
  }

  lemma FirstNext(l: seq<Entry>, p: Pick, n: nat, q: nat)
    requires q < |l|
    ensures FirstOf(l[..q + 1], p, n) ==
            FirstOf(l[..q], p, n) + if Hits(p, l[q]) && |Found(l[..q], p)| < n then [l[q].lt] else []
  {
    FoundNext(l, p, q);
  }

  lemma RestNext(l: seq<Entry>, p: Pick, n: nat, cap: nat, key2: nat, q: nat)
    requires q < |l|
    ensures var before := |Found(l[..q], p)|;
            Rest(l[..q + 1], p, n, cap, key2) ==
            Rest(l[..q], p, n, cap, key2) +
            if !Hits(p, l[q]) then [l[q]]
            else if before < n then []
            else if before < cap then [l[q].(key := key2, requeued := true)]
            else [l[q]]
  {
    assert l[..q + 1][..q] == l[..q];
  }

  // A loop that has dealt with the first q entries of l is at index i of what the list is now.
  ghost predicate Midway(l: seq<Entry>, p: Pick, n: nat, cap: nat, key2: nat, q: nat, now: seq<Entry>, i: nat) {
    q <= |l| && i == |Rest(l[..q], p, n, cap, key2)| && now == Rest(l[..q], p, n, cap, key2) + l[q..]
  }

  lemma MidwayEntry(l: seq<Entry>, p: Pick, n: nat, cap: nat, key2: nat, q: nat, now: seq<Entry>, i: nat)
    requires Midway(l, p, n, cap, key2, q, now, i)
    ensures if q < |l| then i < |now| && now[i] == l[q] else i == |now| && now == Rest(l, p, n, cap, key2)
  {
    if q == |l| { assert l[..q] == l && l[q..] == []; }
  }

  lemma MidwayTake(l: seq<Entry>, p: Pick, n: nat, cap: nat, key2: nat, q: nat, now: seq<Entry>, i: nat)
    requires Midway(l, p, n, cap, key2, q, now, i) && q < |l| && Hits(p, l[q]) && |Found(l[..q], p)| < n
    ensures i < |now| && Midway(l, p, n, cap, key2, q + 1, Without(now, i), i)
  {
    RestNext(l, p, n, cap, key2, q);
    assert l[q..] == [l[q]] + l[q + 1..];
    assert Without(now, i) == Rest(l[..q], p, n, cap, key2) + l[q + 1..];
  }

  lemma MidwayRekey(l: seq<Entry>, p: Pick, n: nat, cap: nat, key2: nat, q: nat, now: seq<Entry>, i: nat)
    requires Midway(l, p, n, cap, key2, q, now, i) && q < |l| && Hits(p, l[q]) && n <= |Found(l[..q], p)| < cap
    ensures i < |now| && Midway(l, p, n, cap, key2, q + 1, Rekeyed(now, i, key2), i + 1)
  {
    RestNext(l, p, n, cap, key2, q);
    assert l[q..] == [l[q]] + l[q + 1..];
    var e := l[q].(key := key2, requeued := true);
    assert Rekeyed(now, i, key2) == Rest(l[..q], p, n, cap, key2) + [e] + l[q + 1..];
  }

  lemma MidwayKeep(l: seq<Entry>, p: Pick, n: nat, cap: nat, key2: nat, q: nat, now: seq<Entry>, i: nat)
    requires Midway(l, p, n, cap, key2, q, now, i) && q < |l|
    requires Hits(p, l[q]) ==> n <= |Found(l[..q], p)| && cap <= |Found(l[..q], p)|
    ensures Midway(l, p, n, cap, key2, q + 1, now, i + 1)
  {
    RestNext(l, p, n, cap, key2, q);
    assert l[q..] == [l[q]] + l[q + 1..];
  }

  // ---- steps of a run ---------------------------------------------------------------------------------------------

  ghost predicate Takes(run: seq<State>, a: nat, step: Step) {
    a + 1 < |run| && Enabled(run[a], step) && run[a + 1] == Apply(run[a], step)
  }

  // h holds the futex lock in all states after a, up to b.
  ghost predicate HeldBy(run: seq<State>, a: nat, b: nat, h: Holder) {
    a < b < |run| && forall j :: a < j <= b ==> run[j].lock == h
  }

  // The lthreads that a step takes off the list and puts at the end of the scheduler queue.
  ghost function Gain(s: State, s': State): seq<Lt> {
    if |s'.list| < |s.list| && |s.sched| <= |s'.sched| then s'.sched[|s.sched|..] else []
  }

  /** The lthreads that the steps between the states j and k have woken, in order. */
  ghost function Woken(run: seq<State>, j: nat, k: nat): seq<Lt>
    requires k < |run|
    decreases k
  {
    if k <= j then [] else Woken(run, j, k - 1) + Gain(run[k - 1], run[k])
  }

  // Nothing that matters to the holder of the lock changes.
  ghost predicate Undisturbed(s: State, s': State) {
    && s'.list == s.list && s'.lock == s.lock
    && (s.lock.Thread? && s.lock.x in s.pc ==> s.lock.x in s'.pc && s'.pc[s.lock.x] == s.pc[s.lock.x])
    && (s.lock.Tick? && s.lock.c in s.cpu ==> s.lock.c in s'.cpu && s'.cpu[s.lock.c] == s.cpu[s.lock.c])
  }

  ghost predicate HolderReady(s: State) { !s.lock.Nobody? && (s.lock.Thread? ==> IsRunning(s, s.lock.x)) }

  ghost predicate OfScheduling(step: Step) {
    step.Spawn? || step.Exit? || step.HostDone? || step.ResumeReturned? || step.ResumeReady?
  }

  ghost predicate OfCpu(step: Step) { step.RunCallback? || step.TickNext? }

  lemma NoStart(s: State, step: Step)
    requires Enabled(s, step) && !s.lock.Nobody?
    ensures !Starts(step) && !step.TickStart?
  {}

  lemma LthreadAlone(s: State, step: Step)
    requires Inv(s) && Enabled(s, step) && HolderReady(s) && step != HolderStep(s)
    requires !Starts(step) && !step.TickStart? && !OfScheduling(step) && !OfCpu(step)
    ensures Undisturbed(s, Apply(s, step))
  {
    assert LtOk(s, step.x);
  }

  lemma SchedulingAlone(s: State, step: Step)
    requires Inv(s) && Enabled(s, step) && HolderReady(s) && step != HolderStep(s) && OfScheduling(step)
    ensures Undisturbed(s, Apply(s, step))
  {
    if s.lock.Thread? { assert LtOk(s, s.lock.x); }
    if step.ResumeReady? { assert s.sched[0] in s.sched; }
    if step.ResumeReturned? { assert s.retq[0] in s.retq; }
    if s.lock.Tick? { assert CpuOk(s, s.lock.c); }
    if step.Exit? { assert LtOk(s, step.x); }
  }

  lemma CpuAlone(s: State, step: Step)
    requires Inv(s) && Enabled(s, step) && HolderReady(s) && step != HolderStep(s) && OfCpu(step)
    ensures Undisturbed(s, Apply(s, step))
  {
    assert CpuOk(s, step.c);
    if step.RunCallback? { assert LtOk(s, s.cpu[step.c].x); }
    if s.lock.Thread? { assert LtOk(s, s.lock.x); }
    if s.lock.Tick? { assert CpuOk(s, s.lock.c); }
  }

  /** While somebody holds the futex lock, no step but the holder's own changes the list, the lock or what the holder
      is doing. */
  lemma HolderAlone(s: State, step: Step)
    requires Inv(s) && Enabled(s, step) && HolderReady(s) && step != HolderStep(s)
    ensures Undisturbed(s, Apply(s, step))
  {
    NoStart(s, step);
    if OfScheduling(step) {
      SchedulingAlone(s, step);
    } else if OfCpu(step) {
      CpuAlone(s, step);
    } else {
      LthreadAlone(s, step);
    }
  }

  // The step that a run takes after k.
  lemma StepAt(threads: set<Lt>, cpus: set<Cpu>, first: Lt, run: seq<State>, k: nat) returns (step: Step)
    requires IsRun(threads, cpus, first, run) && k + 1 < |run|
    ensures Inv(run[k]) && Contexts(run[k]) && Takes(run, k, step)
  {
    RunInv(threads, cpus, first, run, k);
    assert Linked(run, k);
    step :| Enabled(run[k], step) && run[k + 1] == Apply(run[k], step);
  }

  // ---- waking -----------------------------------------------------------------------------------------------------

  // Where a wake of x stands that has dealt with the first q entries of l.
  ghost predicate Waking(s: State, x: Lt, l: seq<Entry>, p: Pick, num: nat, q: nat)
    requires p.WithBits?
  {
    && IsRunning(s, x) && s.lock == Thread(x)
    && match s.pc[x].ctl
       case Wake(key, n, bits, i, w, _) =>
         && key == p.key && n == num && bits == p.bits && Midway(l, p, num, 0, 0, q, s.list, i)
         && w == Min(num, |Found(l[..q], p)|)
       case Unlock => q == |l| && s.list == Rest(l, p, num, 0, 0)
       case _ => false
  }

  lemma WakeUpGain(s: State, i: nat, reason: int)
    requires i < |s.list|
    ensures var s' := WakeUp(s, i, reason);
            && s'.list == Without(s.list, i) && s'.lock == s.lock && s'.cpu == s.cpu
            && s'.pc == s.pc[s.list[i].lt := Lthreads.Ready] && Gain(s, s') == [s.list[i].lt]
  {}

  lemma MatchHits(e: Entry, key: nat, bits: bv32)
    ensures Matches(e, key, bits) <==> Hits(WithBits(key, bits), e)
  {}

  // The three things that a turn of the wake loop can do.
  lemma TurnTakes(s: State, x: Lt, key: nat, num: nat, bits: bv32, i: nat, w: nat, m: nat)
    requires IsRunning(s, x) && s.pc[x].ctl == Wake(key, num, bits, i, w, m) && i < |s.list| && s.list[i].lt != x
    requires Matches(s.list[i], key, bits) && w < num
    ensures var s' := WakeEffect(s, x);
            && IsRunning(s', x) && s'.pc[x].ctl == Wake(key, num, bits, i, w + 1, m) && s'.lock == s.lock
            && s'.list == Without(s.list, i) && Gain(s, s') == [s.list[i].lt]
  {
    WakeUpGain(Go(s, x, Wake(key, num, bits, i, w + 1, m)), i, FUTEX_NONE);
  }

  lemma TurnKeeps(s: State, x: Lt, key: nat, num: nat, bits: bv32, i: nat, w: nat, m: nat)
    requires IsRunning(s, x) && s.pc[x].ctl == Wake(key, num, bits, i, w, m) && i < |s.list|
    requires !Matches(s.list[i], key, bits) || w >= num
    ensures var s' := WakeEffect(s, x);
            && IsRunning(s', x) && s'.pc[x].ctl == Wake(key, num, bits, i + 1, w, m) && s'.lock == s.lock
            && s'.list == s.list && Gain(s, s') == []
  {}

  lemma TurnEnds(s: State, x: Lt, key: nat, num: nat, bits: bv32, i: nat, w: nat, m: nat)
    requires IsRunning(s, x) && s.pc[x].ctl == Wake(key, num, bits, i, w, m) && i >= |s.list|
    ensures var s' := WakeEffect(s, x);
            IsRunning(s', x) && s'.pc[x].ctl == Unlock && s'.lock == s.lock && s'.list == s.list && Gain(s, s') == []
  {}

  lemma WakeTakes(s: State, x: Lt, l: seq<Entry>, p: Pick, num: nat, q: nat)
    requires Enabled(s, WakeNext(x)) && !InList(s.list, x)
    requires p.WithBits? && Waking(s, x, l, p, num, q) && q < |l| && Hits(p, l[q]) && |Found(l[..q], p)| < num
    ensures Waking(WakeEffect(s, x), x, l, p, num, q + 1) && Gain(s, WakeEffect(s, x)) == [l[q].lt]
  {
    var Wake(key, n, bits, i, w, m) := s.pc[x].ctl;
    MidwayEntry(l, p, num, 0, 0, q, s.list, i);
    assert InList(s.list, s.list[i].lt);
    MatchHits(l[q], key, bits);
    TurnTakes(s, x, key, n, bits, i, w, m);
    FoundNext(l, p, q);
    MidwayTake(l, p, num, 0, 0, q, s.list, i);
  }

  lemma WakeKeeps(s: State, x: Lt, l: seq<Entry>, p: Pick, num: nat, q: nat)
    requires Enabled(s, WakeNext(x)) && !InList(s.list, x)
    requires p.WithBits? && Waking(s, x, l, p, num, q) && q < |l| && (!Hits(p, l[q]) || |Found(l[..q], p)| >= num)
    ensures Waking(WakeEffect(s, x), x, l, p, num, q + 1) && Gain(s, WakeEffect(s, x)) == []
  {
    var Wake(key, n, bits, i, w, m) := s.pc[x].ctl;
    MidwayEntry(l, p, num, 0, 0, q, s.list, i);
    MatchHits(l[q], key, bits);
    TurnKeeps(s, x, key, n, bits, i, w, m);
    FoundNext(l, p, q);
    MidwayKeep(l, p, num, 0, 0, q, s.list, i);
  }

  lemma WakeEnds(s: State, x: Lt, l: seq<Entry>, p: Pick, num: nat)
    requires Enabled(s, WakeNext(x)) && !InList(s.list, x)
    requires p.WithBits? && Waking(s, x, l, p, num, |l|)
    ensures Waking(WakeEffect(s, x), x, l, p, num, |l|) && Gain(s, WakeEffect(s, x)) == []
  {
    var Wake(key, n, bits, i, w, m) := s.pc[x].ctl;
    MidwayEntry(l, p, num, 0, 0, |l|, s.list, i);
    TurnEnds(s, x, key, n, bits, i, w, m);
  }

  lemma WakeMoves(s: State, x: Lt, l: seq<Entry>, p: Pick, num: nat, q: nat) returns (q': nat)
    requires Enabled(s, WakeNext(x)) && !InList(s.list, x) && q <= |l| && p.WithBits? && Waking(s, x, l, p, num, q)
    ensures q' <= |l| && Waking(WakeEffect(s, x), x, l, p, num, q')
    ensures FirstOf(l[..q'], p, num) == FirstOf(l[..q], p, num) + Gain(s, WakeEffect(s, x))
  {
    if q == |l| {
      q' := q;
      WakeEnds(s, x, l, p, num);
    } else {
      q' := q + 1;
      FirstNext(l, p, num, q);
      if Hits(p, l[q]) && |Found(l[..q], p)| < num {
        WakeTakes(s, x, l, p, num, q);
      } else {
        WakeKeeps(s, x, l, p, num, q);
      }
    }
  }

  // Only the holder's own step releases the lock.
  lemma ReleasedBy(s: State, step: Step)
    requires Inv(s) && HolderReady(s) && Enabled(s, step) && Apply(s, step).lock != s.lock
    ensures step == HolderStep(s)
  {
    if step != HolderStep(s) { HolderAlone(s, step); }
  }

  lemma NotListed(s: State, x: Lt)
    requires Inv(s) && IsRunning(s, x) && !Listed(s.pc[x])
    ensures !InList(s.list, x)
  {
    assert LtOk(s, x);
  }

  lemma WakingStep(s: State, step: Step, x: Lt, l: seq<Entry>, p: Pick, num: nat, q: nat) returns (q': nat)
    requires Inv(s) && Enabled(s, step) && q <= |l| && p.WithBits? && Waking(s, x, l, p, num, q)
    ensures q' <= |l| && FirstOf(l[..q'], p, num) == FirstOf(l[..q], p, num) + Gain(s, Apply(s, step))
    ensures if Apply(s, step).lock == Thread(x) then Waking(Apply(s, step), x, l, p, num, q')
            else q' == |l| && Apply(s, step).list == Rest(l, p, num, 0, 0) && At(Apply(s, step), x, User)
  {
    q' := q;
    if step != HolderStep(s) {
      HolderAlone(s, step);
    } else if s.pc[x].ctl.Wake? {
      NotListed(s, x);
      q' := WakeMoves(s, x, l, p, num, q);
    }
  }

  lemma WakingNext(threads: set<Lt>, cpus: set<Cpu>, first: Lt, run: seq<State>, k: nat,
                   x: Lt, l: seq<Entry>, p: Pick, num: nat, q: nat)
    returns (q': nat)
    requires IsRun(threads, cpus, first, run) && k + 1 < |run|
    requires q <= |l| && p.WithBits? && Waking(run[k], x, l, p, num, q)
    ensures q' <= |l| && FirstOf(l[..q'], p, num) == FirstOf(l[..q], p, num) + Gain(run[k], run[k + 1])
    ensures if run[k + 1].lock == Thread(x) then Waking(run[k + 1], x, l, p, num, q')
            else q' == |l| && run[k + 1].list == Rest(l, p, num, 0, 0) && At(run[k + 1], x, User)
  {
    var step := StepAt(threads, cpus, first, run, k);
    q' := WakingStep(run[k], step, x, l, p, num, q);
  }

  lemma WakeBegins(s: State, x: Lt, addr: nat, num: nat, bits: bv32)
    requires Enabled(s, StartWake(x, addr, num, bits))
    ensures Waking(Apply(s, StartWake(x, addr, num, bits)), x, s.list, WithBits(addr % 0x1_0000_0000, bits), num, 0)
    ensures FirstOf(s.list[..0], WithBits(addr % 0x1_0000_0000, bits), num) == []
  {
    assert s.list[..0] == [] && s.list[0..] == s.list;
  }

  // Where the wake of step a stands in state k.
  ghost predicate WakingSoFar(run: seq<State>, a: nat, k: nat, x: Lt, l: seq<Entry>, p: Pick, num: nat, q: nat)
    requires a < k < |run| && p.WithBits?
  {
    q <= |l| && Waking(run[k], x, l, p, num, q) && Woken(run, a + 1, k) == FirstOf(l[..q], p, num)
  }

  lemma {:induction false} WakeSoFar(threads: set<Lt>, cpus: set<Cpu>, first: Lt, run: seq<State>, a: nat, k: nat,
                                     x: Lt, l: seq<Entry>, p: Pick, num: nat)
    returns (q: nat)
    requires IsRun(threads, cpus, first, run) && HeldBy(run, a, k, Thread(x))
    requires p.WithBits? && WakingSoFar(run, a, a + 1, x, l, p, num, 0)
    ensures WakingSoFar(run, a, k, x, l, p, num, q)
    decreases k
  {
    if k == a + 1 {
      q := 0;
    } else {
      q := WakeSoFar(threads, cpus, first, run, a, k - 1, x, l, p, num);
      q := WakingNext(threads, cpus, first, run, k - 1, x, l, p, num, q);
    }
  }

  lemma WakeThrough(threads: set<Lt>, cpus: set<Cpu>, first: Lt, run: seq<State>, a: nat, b: nat,
                    x: Lt, l: seq<Entry>, p: Pick, num: nat)
    requires IsRun(threads, cpus, first, run) && p.WithBits?
    requires HeldBy(run, a, b, Thread(x)) && b + 1 < |run| && run[b + 1].lock != Thread(x)
    requires WakingSoFar(run, a, a + 1, x, l, p, num, 0)
    ensures Woken(run, a + 1, b + 1) == FirstOf(l, p, num)
    ensures run[b + 1].list == Rest(l, p, num, 0, 0) && At(run[b + 1], x, User)
  {
    var q := WakeSoFar(threads, cpus, first, run, a, b, x, l, p, num);
    q := WakingNext(threads, cpus, first, run, b, x, l, p, num, q);
    assert l[..|l|] == l;
  }

  /** FUTEX_WAKE, from the step that takes the lock to the one that releases it: the first num sleepers on the list
      whose key is that of addr and who have a bit in common become runnable, in the order of the list, nobody
      else does, and the rest of the list is as it was. */
  lemma WakeCommand(threads: set<Lt>, cpus: set<Cpu>, first: Lt, run: seq<State>, a: nat, b: nat,
                    x: Lt, addr: nat, num: nat, bits: bv32)
    requires IsRun(threads, cpus, first, run) && Takes(run, a, StartWake(x, addr, num, bits))
    requires HeldBy(run, a, b, Thread(x)) && b + 1 < |run| && run[b + 1].lock != Thread(x)
    ensures var p := WithBits(addr % 0x1_0000_0000, bits);
            && Woken(run, a + 1, b + 1) == FirstOf(run[a].list, p, num)
            && run[b + 1].list == Rest(run[a].list, p, num, 0, 0) && At(run[b + 1], x, User)
  {
    var l, p := run[a].list, WithBits(addr % 0x1_0000_0000, bits);
    WakeBegins(run[a], x, addr, num, bits);
    WakeThrough(threads, cpus, first, run, a, b, x, l, p, num);
  }

  // ---- requeueing -------------------------------------------------------------------------------------------------

  ghost predicate Requeueing(s: State, x: Lt, l: seq<Entry>, key: nat, key2: nat, num: nat, limit: nat, q: nat) {
    var p, cap := WithKey(key), (num + limit) % 0x1_0000_0000;
    && IsRunning(s, x) && s.lock == Thread(x)
    && match s.pc[x].ctl
       case Requeue(k1, k2, n, lim, i, w) =>
         && k1 == key && k2 == key2 && n == num && lim == limit && Midway(l, p, num, cap, key2, q, s.list, i)
         && w == Min(Max(num, cap), |Found(l[..q], p)|)
       case Unlock => q == |l| && s.list == Rest(l, p, num, cap, key2)
       case _ => false
  }

  lemma RequeueTakes(s: State, x: Lt, key: nat, key2: nat, num: nat, limit: nat, i: nat, w: nat)
    requires IsRunning(s, x) && s.pc[x].ctl == Requeue(key, key2, num, limit, i, w) && i < |s.list|
    requires s.list[i].lt != x && s.list[i].key == key && w < num
    ensures var s' := RequeueEffect(s, x);
            && IsRunning(s', x) && s'.pc[x].ctl == Requeue(key, key2, num, limit, i, w + 1) && s'.lock == s.lock
            && s'.list == Without(s.list, i) && Gain(s, s') == [s.list[i].lt]
  {
    WakeUpGain(Go(s, x, Requeue(key, key2, num, limit, i, w + 1)), i, FUTEX_NONE);
  }

  lemma RequeueMovesOne(s: State, x: Lt, key: nat, key2: nat, num: nat, limit: nat, i: nat, w: nat)
    requires IsRunning(s, x) && s.pc[x].ctl == Requeue(key, key2, num, limit, i, w) && i < |s.list|
    requires s.list[i].key == key && num <= w < (num + limit) % 0x1_0000_0000
    ensures var s' := RequeueEffect(s, x);
            && IsRunning(s', x) && s'.pc[x].ctl == Requeue(key, key2, num, limit, i + 1, w + 1) && s'.lock == s.lock
            && s'.list == Rekeyed(s.list, i, key2) && Gain(s, s') == []
  {}

  lemma RequeueKeeps(s: State, x: Lt, key: nat, key2: nat, num: nat, limit: nat, i: nat, w: nat)
    requires IsRunning(s, x) && s.pc[x].ctl == Requeue(key, key2, num, limit, i, w) && i < |s.list|
    requires s.list[i].key != key || (num <= w && (num + limit) % 0x1_0000_0000 <= w)
    ensures var s' := RequeueEffect(s, x);
            && IsRunning(s', x) && s'.pc[x].ctl == Requeue(key, key2, num, limit, i + 1, w) && s'.lock == s.lock
            && s'.list == s.list && Gain(s, s') == []
  {}

  lemma RequeueEnds(s: State, x: Lt, key: nat, key2: nat, num: nat, limit: nat, i: nat, w: nat)
    requires IsRunning(s, x) && s.pc[x].ctl == Requeue(key, key2, num, limit, i, w) && i >= |s.list|
    ensures var s' := RequeueEffect(s, x);
            IsRunning(s', x) && s'.pc[x].ctl == Unlock && s'.lock == s.lock && s'.list == s.list && Gain(s, s') == []
  {}

  lemma RequeueTurn(s: State, x: Lt, l: seq<Entry>, key: nat, key2: nat, num: nat, limit: nat, q: nat)
    requires Enabled(s, RequeueNext(x)) && !InList(s.list, x) && q < |l|
    requires Requeueing(s, x, l, key, key2, num, limit, q)
    ensures var s', p := RequeueEffect(s, x), WithKey(key);
            && Requeueing(s', x, l, key, key2, num, limit, q + 1)
            && Gain(s, s') == if Hits(p, l[q]) && |Found(l[..q], p)| < num then [l[q].lt] else []
  {
    var p, cap := WithKey(key), (num + limit) % 0x1_0000_0000;
    var Requeue(_, _, _, _, i, w) := s.pc[x].ctl;
    MidwayEntry(l, p, num, cap, key2, q, s.list, i);
    FoundNext(l, p, q);
    var before := |Found(l[..q], p)|;
    if Hits(p, l[q]) && before < num {
      assert InList(s.list, s.list[i].lt);
      RequeueTakes(s, x, key, key2, num, limit, i, w);
      MidwayTake(l, p, num, cap, key2, q, s.list, i);
    } else if Hits(p, l[q]) && before < cap {
      RequeueMovesOne(s, x, key, key2, num, limit, i, w);
      MidwayRekey(l, p, num, cap, key2, q, s.list, i);
    } else {
      RequeueKeeps(s, x, key, key2, num, limit, i, w);
      MidwayKeep(l, p, num, cap, key2, q, s.list, i);
    }
  }

  lemma RequeueMoves(s: State, x: Lt, l: seq<Entry>, key: nat, key2: nat, num: nat, limit: nat, q: nat)
    returns (q': nat)
    requires Enabled(s, RequeueNext(x)) && !InList(s.list, x) && q <= |l|
    requires Requeueing(s, x, l, key, key2, num, limit, q)
    ensures var s', p := RequeueEffect(s, x), WithKey(key);
            && q' <= |l| && Requeueing(s', x, l, key, key2, num, limit, q')
            && FirstOf(l[..q'], p, num) == FirstOf(l[..q], p, num) + Gain(s, s')
  {
    var p, cap := WithKey(key), (num + limit) % 0x1_0000_0000;
    if q == |l| {
      q' := q;
      var Requeue(_, _, _, _, i, w) := s.pc[x].ctl;
      MidwayEntry(l, p, num, cap, key2, q, s.list, i);
      RequeueEnds(s, x, key, key2, num, limit, i, w);
    } else {
      q' := q + 1;
      FirstNext(l, p, num, q);
      RequeueTurn(s, x, l, key, key2, num, limit, q);
    }
  }

  // What a finished requeue leaves.
  ghost predicate Requeued(s: State, l: seq<Entry>, addr: nat, addr2: nat, num: nat, limit: nat) {
    s.list == Rest(l, WithKey(addr % 0x1_0000_0000), num, (num + limit) % 0x1_0000_0000, addr2 % 0x1_0000_0000)
  }

  lemma RequeueingStep(s: State, step: Step, x: Lt, l: seq<Entry>, addr: nat, addr2: nat, num: nat, limit: nat, q: nat)
    returns (q': nat)
    requires Inv(s) && Enabled(s, step) && q <= |l|
    requires Requeueing(s, x, l, addr % 0x1_0000_0000, addr2 % 0x1_0000_0000, num, limit, q)
    ensures var s', p := Apply(s, step), WithKey(addr % 0x1_0000_0000);
            && q' <= |l| && FirstOf(l[..q'], p, num) == FirstOf(l[..q], p, num) + Gain(s, s')
            && if s'.lock == Thread(x) then
                 Requeueing(s', x, l, addr % 0x1_0000_0000, addr2 % 0x1_0000_0000, num, limit, q')
               else q' == |l| && Requeued(s', l, addr, addr2, num, limit) && At(s', x, User)
  {
    q' := q;
    if step != HolderStep(s) {
      HolderAlone(s, step);
    } else if s.pc[x].ctl.Requeue? {
      NotListed(s, x);
      q' := RequeueMoves(s, x, l, addr % 0x1_0000_0000, addr2 % 0x1_0000_0000, num, limit, q);
    }
  }

  lemma RequeueingNext(threads: set<Lt>, cpus: set<Cpu>, first: Lt, run: seq<State>, k: nat,
                       x: Lt, l: seq<Entry>, addr: nat, addr2: nat, num: nat, limit: nat, q: nat)
    returns (q': nat)
    requires IsRun(threads, cpus, first, run) && k + 1 < |run| && q <= |l|
    requires Requeueing(run[k], x, l, addr % 0x1_0000_0000, addr2 % 0x1_0000_0000, num, limit, q)
    ensures var p := WithKey(addr % 0x1_0000_0000);
            q' <= |l| && FirstOf(l[..q'], p, num) == FirstOf(l[..q], p, num) + Gain(run[k], run[k + 1])
    ensures if run[k + 1].lock == Thread(x) then
              Requeueing(run[k + 1], x, l, addr % 0x1_0000_0000, addr2 % 0x1_0000_0000, num, limit, q')
            else q' == |l| && Requeued(run[k + 1], l, addr, addr2, num, limit) && At(run[k + 1], x, User)
  {
    var step := StepAt(threads, cpus, first, run, k);
    q' := RequeueingStep(run[k], step, x, l, addr, addr2, num, limit, q);
  }

  lemma RequeueBegins(s: State, x: Lt, l: seq<Entry>, key: nat, key2: nat, num: nat, limit: nat)
    requires IsRunning(s, x) && s.lock == Thread(x) && s.list == l
    requires s.pc[x].ctl == Requeue(key, key2, num, limit, 0, 0)
    ensures Requeueing(s, x, l, key, key2, num, limit, 0) && FirstOf(l[..0], WithKey(key), num) == []
  {
    assert l[..0] == [] && l[0..] == l;
  }

  lemma RequeueStarts(s: State, x: Lt, addr: nat, addr2: nat, num: nat, limit: nat)
    requires Enabled(s, StartRequeue(x, addr, addr2, num, limit))
    ensures var key, s' := addr % 0x1_0000_0000, Apply(s, StartRequeue(x, addr, addr2, num, limit));
            && Requeueing(s', x, s.list, key, addr2 % 0x1_0000_0000, num, limit, 0)
            && FirstOf(s.list[..0], WithKey(key), num) == []
  {
    RequeueBegins(Apply(s, StartRequeue(x, addr, addr2, num, limit)), x, s.list, addr % 0x1_0000_0000,
                  addr2 % 0x1_0000_0000, num, limit);
  }

  ghost predicate RequeuedSoFar(run: seq<State>, a: nat, k: nat, x: Lt, l: seq<Entry>, addr: nat, addr2: nat,
                                num: nat, limit: nat, q: nat)
    requires a < k < |run|
  {
    && q <= |l| && Requeueing(run[k], x, l, addr % 0x1_0000_0000, addr2 % 0x1_0000_0000, num, limit, q)
    && Woken(run, a + 1, k) == FirstOf(l[..q], WithKey(addr % 0x1_0000_0000), num)
  }

  lemma {:induction false} RequeueSoFar(threads: set<Lt>, cpus: set<Cpu>, first: Lt, run: seq<State>, a: nat, k: nat,
                                        x: Lt, l: seq<Entry>, addr: nat, addr2: nat, num: nat, limit: nat)
    returns (q: nat)
    requires IsRun(threads, cpus, first, run) && HeldBy(run, a, k, Thread(x))
    requires RequeuedSoFar(run, a, a + 1, x, l, addr, addr2, num, limit, 0)
    ensures RequeuedSoFar(run, a, k, x, l, addr, addr2, num, limit, q)
    decreases k
  {
    if k == a + 1 {
      q := 0;
    } else {
      q := RequeueSoFar(threads, cpus, first, run, a, k - 1, x, l, addr, addr2, num, limit);
      q := RequeueingNext(threads, cpus, first, run, k - 1, x, l, addr, addr2, num, limit, q);
    }
  }

  lemma RequeueThrough(threads: set<Lt>, cpus: set<Cpu>, first: Lt, run: seq<State>, a: nat, b: nat,
                       x: Lt, l: seq<Entry>, addr: nat, addr2: nat, num: nat, limit: nat)
    requires IsRun(threads, cpus, first, run)
    requires HeldBy(run, a, b, Thread(x)) && b + 1 < |run| && run[b + 1].lock != Thread(x)
    requires RequeuedSoFar(run, a, a + 1, x, l, addr, addr2, num, limit, 0)
    ensures Woken(run, a + 1, b + 1) == FirstOf(l, WithKey(addr % 0x1_0000_0000), num)
    ensures Requeued(run[b + 1], l, addr, addr2, num, limit) && At(run[b + 1], x, User)
  {
    var q := RequeueSoFar(threads, cpus, first, run, a, b, x, l, addr, addr2, num, limit);
    q := RequeueingNext(threads, cpus, first, run, b, x, l, addr, addr2, num, limit, q);
    assert l[..|l|] == l;
  }

  /** FUTEX_REQUEUE: the first num sleepers with the key of addr become runnable, in order, and nobody else does; the
      next ones, up to num + limit in 32 bits, get the key of addr2; the rest of the list is as it was. */
  lemma RequeueCommand(threads: set<Lt>, cpus: set<Cpu>, first: Lt, run: seq<State>, a: nat, b: nat,
                       x: Lt, addr: nat, addr2: nat, num: nat, limit: nat)
    requires IsRun(threads, cpus, first, run) && Takes(run, a, StartRequeue(x, addr, addr2, num, limit))
    requires HeldBy(run, a, b, Thread(x)) && b + 1 < |run| && run[b + 1].lock != Thread(x)
    ensures Woken(run, a + 1, b + 1) == FirstOf(run[a].list, WithKey(addr % 0x1_0000_0000), num)
    ensures Requeued(run[b + 1], run[a].list, addr, addr2, num, limit) && At(run[b + 1], x, User)
  {
    RequeueStarts(run[a], x, addr, addr2, num, limit);
    RequeueThrough(threads, cpus, first, run, a, b, x, run[a].list, addr, addr2, num, limit);
  }

  // Where a FUTEX_CMP_REQUEUE stands: before its comparison, or after one with the given outcome.
  ghost predicate Comparing(s: State, x: Lt, l: seq<Entry>, start: Step, equal: Option<bool>, q: nat)
    requires start.StartCmpRequeue?
  {
    var StartCmpRequeue(_, addr, addr2, num, limit, expected) := start;
    && q <= |l| && IsRunning(s, x) && s.lock == Thread(x)
    && match equal
       case None => q == 0 && s.list == l && s.pc[x].ctl == Compare(addr, addr2, num, limit, expected)
       case Some(true) => Requeueing(s, x, l, addr % 0x1_0000_0000, addr2 % 0x1_0000_0000, num, limit, q)
       case Some(false) => q == 0 && s.list == l && s.pc[x].ctl == Unlock
  }

  lemma CompareStep(s: State, x: Lt, l: seq<Entry>, start: Step)
    requires start.StartCmpRequeue? && Comparing(s, x, l, start, None, 0)
    ensures var s', equal := Apply(s, CompareWord(x)), Word(s, start.addr) == start.expected;
            && Comparing(s', x, l, start, Some(equal), 0) && s'.lock == Thread(x) && Gain(s, s') == []
            && FirstOf(l[..0], WithKey(start.addr % 0x1_0000_0000), start.num) == []
  {
    var s' := Apply(s, CompareWord(x));
    assert l[..0] == [];
    if Word(s, start.addr) == start.expected {
      RequeueBegins(s', x, l, start.addr % 0x1_0000_0000, start.addr2 % 0x1_0000_0000, start.num, start.limit);
    }
  }

  // What the command has woken so far.
  ghost function ComparedWoken(l: seq<Entry>, start: Step, equal: Option<bool>, q: nat): seq<Lt>
    requires start.StartCmpRequeue? && q <= |l|
  {
    if equal == Some(true) then FirstOf(l[..q], WithKey(start.addr % 0x1_0000_0000), start.num) else []
  }

  lemma ComparingStep(s: State, step: Step, x: Lt, l: seq<Entry>, start: Step, equal: Option<bool>, q: nat)
    returns (equal': Option<bool>, q': nat)
    requires Inv(s) && Enabled(s, step) && start.StartCmpRequeue? && Comparing(s, x, l, start, equal, q)
    ensures equal' ==
            if equal.None? && step == CompareWord(x) then Some(Word(s, start.addr) == start.expected) else equal
    ensures var s' := Apply(s, step);
            && q' <= |l| && ComparedWoken(l, start, equal', q') == ComparedWoken(l, start, equal, q) + Gain(s, s')
            && if s'.lock == Thread(x) then Comparing(s', x, l, start, equal', q')
               else && equal'.Some? && At(s', x, User)
                    && if equal'.value then
                         q' == |l| && Requeued(s', l, start.addr, start.addr2, start.num, start.limit)
                       else s'.list == l
  {
    equal', q' := equal, q;
    if equal == Some(true) {
      q' := RequeueingStep(s, step, x, l, start.addr, start.addr2, start.num, start.limit, q);
    } else if step != HolderStep(s) {
      HolderAlone(s, step);
    } else if equal.None? {
      CompareStep(s, x, l, start);
      equal' := Some(Word(s, start.addr) == start.expected);
    }
  }

  lemma CompareStarts(s: State, start: Step)
    requires start.StartCmpRequeue? && Enabled(s, start)
    ensures Comparing(Apply(s, start), start.x, s.list, start, None, 0)
  {}

  // Where the command of step a stands in state k, its comparison having been step c.
  ghost predicate ComparedSoFar(run: seq<State>, a: nat, k: nat, start: Step, c: nat, equal: Option<bool>, q: nat)
    requires a < k < |run| && start.StartCmpRequeue?
  {
    && Comparing(run[k], start.x, run[a].list, start, equal, q)
    && Woken(run, a + 1, k) == ComparedWoken(run[a].list, start, equal, q)
    && (equal.Some? ==> a < c < k && equal.value == (Word(run[c], start.addr) == start.expected))
  }

  lemma ComparingNext(threads: set<Lt>, cpus: set<Cpu>, first: Lt, run: seq<State>, k: nat,
                      l: seq<Entry>, start: Step, equal: Option<bool>, q: nat)
    returns (equal': Option<bool>, q': nat)
    requires IsRun(threads, cpus, first, run) && k + 1 < |run|
    requires start.StartCmpRequeue? && Comparing(run[k], start.x, l, start, equal, q)
    ensures equal' == equal || (equal.None? && equal' == Some(Word(run[k], start.addr) == start.expected))
    ensures q' <= |l|
    ensures ComparedWoken(l, start, equal', q') == ComparedWoken(l, start, equal, q) + Gain(run[k], run[k + 1])
    ensures if run[k + 1].lock == Thread(start.x) then Comparing(run[k + 1], start.x, l, start, equal', q')
            else && equal'.Some? && equal' == equal && At(run[k + 1], start.x, User)
                 && if equal'.value then
                      q' == |l| && Requeued(run[k + 1], l, start.addr, start.addr2, start.num, start.limit)
                    else run[k + 1].list == l
  {
    var step := StepAt(threads, cpus, first, run, k);
    equal', q' := ComparingStep(run[k], step, start.x, l, start, equal, q);
  }

  lemma {:induction false} CompareSoFar(threads: set<Lt>, cpus: set<Cpu>, first: Lt, run: seq<State>, a: nat, k: nat,
                                        start: Step)
    returns (c: nat, equal: Option<bool>, q: nat)
    requires IsRun(threads, cpus, first, run) && start.StartCmpRequeue? && HeldBy(run, a, k, Thread(start.x))
    requires ComparedSoFar(run, a, a + 1, start, 0, None, 0)
    ensures ComparedSoFar(run, a, k, start, c, equal, q)
    decreases k
  {
    if k == a + 1 {
      c, equal, q := 0, None, 0;
    } else {
      c, equal, q := CompareSoFar(threads, cpus, first, run, a, k - 1, start);
      var was := equal;
      equal, q := ComparingNext(threads, cpus, first, run, k - 1, run[a].list, start, equal, q);
      if was.None? { c := k - 1; }
    }
  }

  /** FUTEX_CMP_REQUEUE compares the word once, holding the lock. If it has the expected value the command does what
      FUTEX_REQUEUE does, and otherwise it wakes and moves nobody. */
  lemma CmpRequeueCommand(threads: set<Lt>, cpus: set<Cpu>, first: Lt, run: seq<State>, a: nat, b: nat,
                          x: Lt, addr: nat, addr2: nat, num: nat, limit: nat, expected: int)
    returns (c: nat)
    requires IsRun(threads, cpus, first, run)
    requires Takes(run, a, StartCmpRequeue(x, addr, addr2, num, limit, expected))
    requires HeldBy(run, a, b, Thread(x)) && b + 1 < |run| && run[b + 1].lock != Thread(x)
    ensures a < c < b && At(run[b + 1], x, User)
    ensures if Word(run[c], addr) == expected then
              && Woken(run, a + 1, b + 1) == FirstOf(run[a].list, WithKey(addr % 0x1_0000_0000), num)
              && Requeued(run[b + 1], run[a].list, addr, addr2, num, limit)
            else Woken(run, a + 1, b + 1) == [] && run[b + 1].list == run[a].list
  {
    var l, start := run[a].list, StartCmpRequeue(x, addr, addr2, num, limit, expected);
    var equal, q;
    CompareStarts(run[a], start);
    c, equal, q := CompareSoFar(threads, cpus, first, run, a, b, start);
    equal, q := ComparingNext(threads, cpus, first, run, b, l, start, equal, q);
    assert l[..|l|] == l;
  }

  // ---- ticks ------------------------------------------------------------------------------------------------------

  ghost predicate InTick(s: State, c: Cpu, l: seq<Entry>, now: nat, q: nat) {
    && s.lock == Tick(c) && c in s.cpu && s.cpu[c].Ticking? && s.cpu[c].now == now
    && Midway(l, DueAt(now), |l|, 0, 0, q, s.list, s.cpu[c].i)
  }

  lemma TickTakes(s: State, c: Cpu, i: nat, now: nat)
    requires c in s.cpu && s.cpu[c] == Ticking(i, now) && i < |s.list| && Hits(DueAt(now), s.list[i])
    ensures var s' := TickEffect(s, c);
            && c in s'.cpu && s'.cpu[c] == Ticking(i, now) && s'.lock == s.lock
            && s'.list == Without(s.list, i) && Gain(s, s') == [s.list[i].lt]
  {
    WakeUpGain(s, i, FUTEX_EXPIRED);
  }

  lemma TickKeeps(s: State, c: Cpu, i: nat, now: nat)
    requires c in s.cpu && s.cpu[c] == Ticking(i, now) && i < |s.list| && !Hits(DueAt(now), s.list[i])
    ensures var s' := TickEffect(s, c);
            && c in s'.cpu && s'.cpu[c] == Ticking(i + 1, now) && s'.lock == s.lock
            && s'.list == s.list && Gain(s, s') == []
  {}

  lemma TickTurn(s: State, c: Cpu, l: seq<Entry>, now: nat, q: nat)
    requires InTick(s, c, l, now, q) && q < |l|
    ensures var s', p := TickEffect(s, c), DueAt(now);
            InTick(s', c, l, now, q + 1) && Gain(s, s') == if Hits(p, l[q]) then [l[q].lt] else []
  {
    var p, i := DueAt(now), s.cpu[c].i;
    MidwayEntry(l, p, |l|, 0, 0, q, s.list, i);
    FoundSize(l[..q], p);
    if Hits(p, l[q]) {
      TickTakes(s, c, i, now);
      MidwayTake(l, p, |l|, 0, 0, q, s.list, i);
    } else {
      TickKeeps(s, c, i, now);
      MidwayKeep(l, p, |l|, 0, 0, q, s.list, i);
    }
  }

  lemma InTickStep(s: State, step: Step, c: Cpu, l: seq<Entry>, now: nat, q: nat) returns (q': nat)
    requires Inv(s) && Enabled(s, step) && q <= |l| && InTick(s, c, l, now, q)
    ensures var s', p := Apply(s, step), DueAt(now);
            && q' <= |l| && FirstOf(l[..q'], p, |l|) == FirstOf(l[..q], p, |l|) + Gain(s, s')
            && if s'.lock == Tick(c) then InTick(s', c, l, now, q')
               else q' == |l| && s'.list == Rest(l, p, |l|, 0, 0)
  {
    q' := q;
    if step != HolderStep(s) {
      HolderAlone(s, step);
    } else if q < |l| {
      FirstNext(l, DueAt(now), |l|, q);
      FoundSize(l[..q], DueAt(now));
      TickTurn(s, c, l, now, q);
      q' := q + 1;
    } else {
      MidwayEntry(l, DueAt(now), |l|, 0, 0, q, s.list, s.cpu[c].i);
    }
  }

  lemma InTickNext(threads: set<Lt>, cpus: set<Cpu>, first: Lt, run: seq<State>, k: nat,
                   c: Cpu, l: seq<Entry>, now: nat, q: nat)
    returns (q': nat)
    requires IsRun(threads, cpus, first, run) && k + 1 < |run| && q <= |l| && InTick(run[k], c, l, now, q)
    ensures q' <= |l|
    ensures FirstOf(l[..q'], DueAt(now), |l|) == FirstOf(l[..q], DueAt(now), |l|) + Gain(run[k], run[k + 1])
    ensures if run[k + 1].lock == Tick(c) then InTick(run[k + 1], c, l, now, q')
            else q' == |l| && run[k + 1].list == Rest(l, DueAt(now), |l|, 0, 0)
  {
    var step := StepAt(threads, cpus, first, run, k);
    q' := InTickStep(run[k], step, c, l, now, q);
  }

  lemma TickStarts(s: State, c: Cpu, now: nat)
    requires Enabled(s, TickStart(c, now))
    ensures InTick(Apply(s, TickStart(c, now)), c, s.list, now, 0) && FirstOf(s.list[..0], DueAt(now), |s.list|) == []
  {
    assert s.list[..0] == [] && s.list[0..] == s.list;
  }

  ghost predicate TickedSoFar(run: seq<State>, a: nat, k: nat, c: Cpu, l: seq<Entry>, now: nat, q: nat)
    requires a < k < |run|
  {
    q <= |l| && InTick(run[k], c, l, now, q) && Woken(run, a + 1, k) == FirstOf(l[..q], DueAt(now), |l|)
  }

  lemma {:induction false} TickSoFar(threads: set<Lt>, cpus: set<Cpu>, first: Lt, run: seq<State>, a: nat, k: nat,
                                     c: Cpu, l: seq<Entry>, now: nat)
    returns (q: nat)
    requires IsRun(threads, cpus, first, run) && HeldBy(run, a, k, Tick(c))
    requires TickedSoFar(run, a, a + 1, c, l, now, 0)
    ensures TickedSoFar(run, a, k, c, l, now, q)
    decreases k
  {
    if k == a + 1 {
      q := 0;
    } else {
      q := TickSoFar(threads, cpus, first, run, a, k - 1, c, l, now);
      q := InTickNext(threads, cpus, first, run, k - 1, c, l, now, q);
    }
  }

  lemma TickThrough(threads: set<Lt>, cpus: set<Cpu>, first: Lt, run: seq<State>, a: nat, b: nat,
                    c: Cpu, l: seq<Entry>, now: nat)
    requires IsRun(threads, cpus, first, run)
    requires a + 1 < |run| && TickedSoFar(run, a, a + 1, c, l, now, 0)
    requires HeldBy(run, a, b, Tick(c)) && b + 1 < |run| && run[b + 1].lock != Tick(c)
    ensures Woken(run, a + 1, b + 1) == FirstOf(l, DueAt(now), |l|)
    ensures run[b + 1].list == Rest(l, DueAt(now), |l|, 0, 0)
  {
    var q := TickSoFar(threads, cpus, first, run, a, b, c, l, now);
    q := InTickNext(threads, cpus, first, run, b, c, l, now, q);
    assert l[..|l|] == l;
  }

  /** A tick takes exactly the sleepers off the list whose deadline is not 0 and has been reached by the clock, and
      makes them runnable in the order of the list. */
  lemma TickCommand(threads: set<Lt>, cpus: set<Cpu>, first: Lt, run: seq<State>, a: nat, b: nat, c: Cpu, now: nat)
    requires IsRun(threads, cpus, first, run) && Takes(run, a, TickStart(c, now))
    requires HeldBy(run, a, b, Tick(c)) && b + 1 < |run| && run[b + 1].lock != Tick(c)
    ensures var l := run[a].list;
            && Woken(run, a + 1, b + 1) == FirstOf(l, DueAt(now), |l|)
            && run[b + 1].list == Rest(l, DueAt(now), |l|, 0, 0)
  {
    TickStarts(run[a], c, now);
    TickThrough(threads, cpus, first, run, a, b, c, run[a].list, now);
  }

  // ---- waiting ----------------------------------------------------------------------------------------------------

  // The entry of a wait command.
  ghost function Sleeper(start: Step): Entry
    requires start.StartWait?
  {
    Entry(start.x, start.addr % 0x1_0000_0000, start.bits, start.deadline, start.addr, start.val, false)
  }

  // Where a wait command stands: before it reads the word, or after it has found it equal or not.
  ghost predicate Waiting(s: State, l: seq<Entry>, start: Step, equal: Option<bool>)
    requires start.StartWait?
  {
    var x := start.x;
    && IsRunning(s, x) && s.lock == Thread(x)
    && match equal
       case None => s.list == l && s.pc[x].ctl == Wait(start.addr, start.val, start.bits, start.deadline)
       case Some(true) =>
         s.list == [Sleeper(start)] + l && (s.pc[x].ctl == Inserted || s.pc[x].ctl == Saved(UnlockFutex))
       case Some(false) => s.list == l && (s.pc[x].ctl == Returning(-EAGAIN) || s.pc[x].ctl == Unlock)
  }

  lemma WaitingStep(s: State, step: Step, l: seq<Entry>, start: Step, equal: Option<bool>)
    returns (equal': Option<bool>)
    requires Inv(s) && Enabled(s, step) && start.StartWait? && Waiting(s, l, start, equal)
    ensures equal' ==
            if equal.None? && step == ReadWord(start.x) then Some(Word(s, start.addr) == start.val) else equal
    ensures var s' := Apply(s, step);
            if s'.lock == Thread(start.x) then Waiting(s', l, start, equal')
            else && equal'.Some? && start.x in s'.pc
                 && if equal'.value then s'.list == [Sleeper(start)] + l && s'.pc[start.x].Sleeping?
                    else s'.list == l && At(s', start.x, User)
  {
    equal' := equal;
    if step != HolderStep(s) {
      HolderAlone(s, step);
    } else if equal.None? {
      equal' := Some(Word(s, start.addr) == start.val);
    } else if step.RunCallback? {
      assert LtOk(s, start.x);
    }
  }

  lemma WaitingNext(threads: set<Lt>, cpus: set<Cpu>, first: Lt, run: seq<State>, k: nat,
                    l: seq<Entry>, start: Step, equal: Option<bool>)
    returns (equal': Option<bool>)
    requires IsRun(threads, cpus, first, run) && k + 1 < |run| && start.StartWait? && Waiting(run[k], l, start, equal)
    ensures equal' == equal || (equal.None? && equal' == Some(Word(run[k], start.addr) == start.val))
    ensures if run[k + 1].lock == Thread(start.x) then Waiting(run[k + 1], l, start, equal')
            else && equal'.Some? && equal' == equal && start.x in run[k + 1].pc
                 && if equal'.value then run[k + 1].list == [Sleeper(start)] + l && run[k + 1].pc[start.x].Sleeping?
                    else run[k + 1].list == l && At(run[k + 1], start.x, User)
  {
    var step := StepAt(threads, cpus, first, run, k);
    equal' := WaitingStep(run[k], step, l, start, equal);
  }

  lemma WaitStarts(s: State, start: Step)
    requires start.StartWait? && Enabled(s, start)
    ensures Waiting(Apply(s, start), s.list, start, None)
  {}

  lemma {:induction false} WaitSoFar(threads: set<Lt>, cpus: set<Cpu>, first: Lt, run: seq<State>, a: nat, k: nat,
                                     l: seq<Entry>, start: Step)
    returns (r: nat, equal: Option<bool>)
    requires IsRun(threads, cpus, first, run) && start.StartWait? && HeldBy(run, a, k, Thread(start.x))
    requires Waiting(run[a + 1], l, start, None)
    ensures Waiting(run[k], l, start, equal)
    ensures equal.Some? ==> a < r < k && equal.value == (Word(run[r], start.addr) == start.val)
    decreases k
  {
    if k == a + 1 {
      r, equal := 0, None;
    } else {
      r, equal := WaitSoFar(threads, cpus, first, run, a, k - 1, l, start);
      var was := equal;
      equal := WaitingNext(threads, cpus, first, run, k - 1, l, start, equal);
      if was.None? { r := k - 1; }
    }
  }

  /** A wait command reads the word once, holding the lock. If it has the expected value the lthread is asleep when the
      lock is released, its entry at the head of the list with the key of addr and the bits and deadline it gave;
      otherwise the list is as it was and the lthread is back in application code. */
  lemma WaitCommand(threads: set<Lt>, cpus: set<Cpu>, first: Lt, run: seq<State>, a: nat, b: nat,
                    x: Lt, addr: nat, val: int, bits: bv32, deadline: nat)
    returns (r: nat)
    requires IsRun(threads, cpus, first, run) && Takes(run, a, StartWait(x, addr, val, bits, deadline))
    requires HeldBy(run, a, b, Thread(x)) && b + 1 < |run| && run[b + 1].lock != Thread(x)
    ensures a < r < b && x in run[b + 1].pc
    ensures if Word(run[r], addr) == val then
              && run[b + 1].pc[x].Sleeping?
              && run[b + 1].list == [Entry(x, addr % 0x1_0000_0000, bits, deadline, addr, val, false)] + run[a].list
            else run[b + 1].list == run[a].list && At(run[b + 1], x, User)
  {
    var start := StartWait(x, addr, val, bits, deadline);
    var equal;
    WaitStarts(run[a], start);
    r, equal := WaitSoFar(threads, cpus, first, run, a, b, run[a].list, start);
    equal := WaitingNext(threads, cpus, first, run, b, run[a].list, start, equal);
  }

  // ---- no lost wake-up --------------------------------------------------------------------------------------------

  // Nobody who came to wait at addr for v, with one of the given bits, sleeps there.
  ghost predicate NoneWaitsFor(l: seq<Entry>, addr: nat, v: int, bits: bv32) {
    forall a :: 0 <= a < |l| ==> !(Meets(l[a], bits) && WaitsFor(l[a], addr, v))
  }

  ghost predicate Meets(e: Entry, bits: bv32) { e.bits & bits != 0 }

  ghost predicate WaitsFor(e: Entry, addr: nat, v: int) { !e.requeued && e.addr == addr && e.val == v }

  lemma NoneStep(s: State, step: Step, l: seq<Entry>, addr: nat, v: int, bits: bv32)
    requires Distinct(s.list) && ListStep(s, step, l) && Word(s, addr) != v && NoneWaitsFor(s.list, addr, v, bits)
    ensures NoneWaitsFor(l, addr, v, bits)
  {
    if i :| 0 <= i < |s.list| && l == Without(s.list, i) { DistinctWithout(s.list, i); }
  }

  lemma NextNone(threads: set<Lt>, cpus: set<Cpu>, first: Lt, run: seq<State>, k: nat, addr: nat, v: int, bits: bv32)
    requires IsRun(threads, cpus, first, run) && k + 1 < |run|
    requires Word(run[k], addr) != v && NoneWaitsFor(run[k].list, addr, v, bits)
    ensures NoneWaitsFor(run[k + 1].list, addr, v, bits)
  {
    var step := StepAt(threads, cpus, first, run, k);
    ListEffect(run[k], step);
    NoneStep(run[k], step, run[k + 1].list, addr, v, bits);
  }

  lemma {:induction false} NoneLater(threads: set<Lt>, cpus: set<Cpu>, first: Lt, run: seq<State>, j: nat, k: nat,
                                     addr: nat, v: int, bits: bv32)
    requires IsRun(threads, cpus, first, run) && j <= k < |run| && NoneWaitsFor(run[j].list, addr, v, bits)
    requires forall t :: j <= t < k ==> Word(run[t], addr) != v
    ensures NoneWaitsFor(run[k].list, addr, v, bits)
    decreases k
  {
    if j < k {
      NoneLater(threads, cpus, first, run, j, k - 1, addr, v, bits);
      NextNone(threads, cpus, first, run, k - 1, addr, v, bits);
    }
  }

  lemma {:induction false} RestNone(l: seq<Entry>, p: Pick, n: nat)
    requires |Found(l, p)| <= n
    ensures forall e :: e in Rest(l, p, n, 0, 0) ==> !Hits(p, e)
  {
    if l != [] { RestNone(l[..|l| - 1], p, n); }
  }

  /** No lost wake-up. A wake on addr that is asked for at least as many lthreads as match has released the lock after
      step b. For as long as the word at addr is not v from then on, nobody who came to wait for v at addr with a bit
      in common with those of the wake is asleep there. */
  lemma NoLostWakeup(threads: set<Lt>, cpus: set<Cpu>, first: Lt, run: seq<State>, a: nat, b: nat, k: nat,
                     x: Lt, addr: nat, num: nat, bits: bv32, v: int)
    requires IsRun(threads, cpus, first, run) && Takes(run, a, StartWake(x, addr, num, bits))
    requires HeldBy(run, a, b, Thread(x)) && b < k < |run| && run[b + 1].lock != Thread(x)
    requires |Found(run[a].list, WithBits(addr % 0x1_0000_0000, bits))| <= num
    requires forall t :: b < t < k ==> Word(run[t], addr) != v
    ensures NoneWaitsFor(run[k].list, addr, v, bits)
  {
    var l, p := run[b + 1].list, WithBits(addr % 0x1_0000_0000, bits);
    WakeCommand(threads, cpus, first, run, a, b, x, addr, num, bits);
    RestNone(run[a].list, p, num);
    RunInv(threads, cpus, first, run, b + 1);
    forall i | 0 <= i < |l| ensures !(Meets(l[i], bits) && WaitsFor(l[i], addr, v)) {
      assert l[i] in l && !Hits(p, l[i]) && EntryOk(l[i]);
    }
    NoneLater(threads, cpus, first, run, b + 1, k, addr, v, bits);
  }

  /** With the bits of a plain FUTEX_WAKE it is nobody at all. */
  lemma NobodyLeft(threads: set<Lt>, cpus: set<Cpu>, first: Lt, run: seq<State>, a: nat, b: nat, k: nat,
                   x: Lt, addr: nat, num: nat, v: int)
    requires IsRun(threads, cpus, first, run) && Takes(run, a, StartWake(x, addr, num, MATCH_ANY))
    requires HeldBy(run, a, b, Thread(x)) && b < k < |run| && run[b + 1].lock != Thread(x)
    requires |Found(run[a].list, WithBits(addr % 0x1_0000_0000, MATCH_ANY))| <= num
    requires forall t :: b < t < k ==> Word(run[t], addr) != v
    ensures forall i :: 0 <= i < |run[k].list| ==> !WaitsFor(run[k].list[i], addr, v)
  {
    NoLostWakeup(threads, cpus, first, run, a, b, k, x, addr, num, MATCH_ANY, v);
    RunInv(threads, cpus, first, run, k);
    forall i | 0 <= i < |run[k].list| ensures !WaitsFor(run[k].list[i], addr, v) {
      assert EntryOk(run[k].list[i]);
      AnyBit(run[k].list[i].bits);
      assert Meets(run[k].list[i], MATCH_ANY);
    }
  }

  lemma AnyBit(b: bv32)
    ensures b & MATCH_ANY == b
  {}

  lemma WordStep(s: State, step: Step, addr: nat, v: int)
    requires Enabled(s, step) && Word(s, addr) != v && Word(Apply(s, step), addr) == v
    ensures step.Store? && step.addr == addr && step.v == v
  {}

  // A word that is not v stays so until somebody stores v.
  lemma {:induction false} WordStays(threads: set<Lt>, cpus: set<Cpu>, first: Lt, run: seq<State>, j: nat, k: nat,
                                     addr: nat, v: int)
    requires IsRun(threads, cpus, first, run) && j <= k < |run| && Word(run[j], addr) != v
    requires forall t, z :: j <= t < k ==> !Takes(run, t, Store(z, addr, v))
    ensures Word(run[k], addr) != v
    decreases k
  {
    if j < k {
      WordStays(threads, cpus, first, run, j, k - 1, addr, v);
      var t := k - 1;
      var step := StepAt(threads, cpus, first, run, t);
      if Word(run[k], addr) == v { WordStep(run[t], step, addr, v); }
    }
  }

  /** The protocol of the waker: it stores a value other than v at addr and then wakes all who match. From then on,
      until somebody stores v there again, nobody who came to wait for v with one of the bits is asleep there. */
  lemma StoreAndWake(threads: set<Lt>, cpus: set<Cpu>, first: Lt, run: seq<State>, c: nat, a: nat, b: nat, k: nat,
                     x: Lt, y: Lt, addr: nat, num: nat, bits: bv32, v: int, v': int)
    requires IsRun(threads, cpus, first, run) && Takes(run, c, Store(y, addr, v')) && v' != v && c < a
    requires Takes(run, a, StartWake(x, addr, num, bits))
    requires HeldBy(run, a, b, Thread(x)) && b < k < |run| && run[b + 1].lock != Thread(x)
    requires |Found(run[a].list, WithBits(addr % 0x1_0000_0000, bits))| <= num
    requires forall t, z :: c < t < k ==> !Takes(run, t, Store(z, addr, v))
    ensures NoneWaitsFor(run[k].list, addr, v, bits)
  {
    forall t | b < t < k ensures Word(run[t], addr) != v { WordStays(threads, cpus, first, run, c + 1, t, addr, v); }
    NoLostWakeup(threads, cpus, first, run, a, b, k, x, addr, num, bits, v);
  }

  // ---- host calls and yields --------------------------------------------------------------------------------------

  // On the way through a host call, or through the scheduler queue.
  ghost predicate OnTheWay(s: State, x: Lt, host: bool) {
    && x in s.pc
    && if host then At(s, x, Saved(Submit)) || s.pc[x].InFlight? || s.pc[x].Returned?
       else At(s, x, Saved(Enqueue)) || (s.pc[x].Ready? && Ctx(s, x) == User)
  }

  ghost predicate Way(s: State, s': State, step: Step, x: Lt, host: bool)
    requires x in s.pc
  {
    && x in s'.pc && (OnTheWay(s', x, host) || At(s', x, User))
    && (s'.pc[x].Returned? && !s.pc[x].Returned? ==> step == HostDone(x))
    && (At(s', x, User) ==> if host then s.pc[x].Returned? else s.pc[x].Ready?)
  }

  ghost predicate Unmoved(s: State, s': State, x: Lt) {
    x in s.pc && x in s'.pc && s'.pc[x] == s.pc[x] && Ctx(s', x) == Ctx(s, x)
  }

  lemma UnmovedWay(s: State, s': State, step: Step, x: Lt, host: bool)
    requires OnTheWay(s, x, host) && Unmoved(s, s', x)
    ensures Way(s, s', step, x, host)
  {}

  lemma WayWake(s: State, step: Step, x: Lt)
    requires Inv(s) && Enabled(s, step) && Wakes(s, step) && x in s.pc && !InList(s.list, x)
    requires s.pc[x].OnCpu? ==> s.pc[x].ctl.Saved?
    ensures Unmoved(s, Apply(s, step), x)
  {
    var i := if step.TickNext? then s.cpu[step.c].i else s.pc[step.x].ctl.i;
    assert InList(s.list, s.list[i].lt);
  }

  lemma WayLthread(s: State, step: Step, x: Lt, host: bool)
    requires Enabled(s, step) && OnTheWay(s, x, host) && !Wakes(s, step)
    requires !OfScheduling(step) && !OfCpu(step) && !step.TickStart?
    ensures Unmoved(s, Apply(s, step), x)
  {
    assert step.x != x;
  }

  lemma WayCallback(s: State, step: Step, x: Lt, host: bool)
    requires Inv(s) && Contexts(s) && Enabled(s, step) && OnTheWay(s, x, host) && step.RunCallback?
    ensures Way(s, Apply(s, step), step, x, host)
  {
    assert LtOk(s, x) && ContextOk(s, x) && CpuOk(s, step.c);
  }

  lemma WayScheduling(s: State, step: Step, x: Lt, host: bool)
    requires Inv(s) && Contexts(s) && Enabled(s, step) && OnTheWay(s, x, host) && OfScheduling(step)
    ensures Way(s, Apply(s, step), step, x, host)
  {
    assert LtOk(s, x) && ContextOk(s, x);
    if step.ResumeReady? { assert s.sched[0] in s.sched; }
    if step.ResumeReturned? { assert s.retq[0] in s.retq; }
  }

  // No step but those of the scheduler and the host moves it.
  lemma WayStep(s: State, step: Step, x: Lt, host: bool)
    requires Inv(s) && Contexts(s) && Enabled(s, step) && OnTheWay(s, x, host)
    ensures Way(s, Apply(s, step), step, x, host)
  {
    if Wakes(s, step) {
      assert LtOk(s, x);
      WayWake(s, step, x);
      UnmovedWay(s, Apply(s, step), step, x, host);
    } else if OfScheduling(step) {
      WayScheduling(s, step, x, host);
    } else if step.RunCallback? {
      WayCallback(s, step, x, host);
    } else if !step.TickStart? && !step.TickNext? {
      WayLthread(s, step, x, host);
      UnmovedWay(s, Apply(s, step), step, x, host);
    }
  }

  lemma WayNext(threads: set<Lt>, cpus: set<Cpu>, first: Lt, run: seq<State>, k: nat, x: Lt, host: bool)
    requires IsRun(threads, cpus, first, run) && k + 1 < |run| && OnTheWay(run[k], x, host)
    ensures x in run[k + 1].pc && (OnTheWay(run[k + 1], x, host) || At(run[k + 1], x, User))
    ensures run[k + 1].pc[x].Returned? && !run[k].pc[x].Returned? ==> Takes(run, k, HostDone(x))
    ensures At(run[k + 1], x, User) ==> if host then run[k].pc[x].Returned? else run[k].pc[x].Ready?
  {
    var step := StepAt(threads, cpus, first, run, k);
    WayStep(run[k], step, x, host);
  }

  lemma {:induction false} CallSoFar(threads: set<Lt>, cpus: set<Cpu>, first: Lt, run: seq<State>, a: nat, k: nat,
                                     x: Lt)
    returns (d: nat)
    requires IsRun(threads, cpus, first, run) && a < k < |run| && At(run[a + 1], x, Saved(Submit))
    requires forall j :: a < j <= k ==> !At(run[j], x, User)
    ensures OnTheWay(run[k], x, true) && (run[k].pc[x].Returned? ==> a < d < k && Takes(run, d, HostDone(x)))
    decreases k
  {
    d := 0;
    if k > a + 1 {
      d := CallSoFar(threads, cpus, first, run, a, k - 1, x);
      WayNext(threads, cpus, first, run, k - 1, x, true);
      if !run[k - 1].pc[x].Returned? { d := k - 1; }
    }
  }

  lemma YieldStarts(s: State, x: Lt)
    requires At(s, x, User)
    ensures At(Apply(s, CallYield(x)), x, Saved(Submit)) && At(Apply(s, Reschedule(x)), x, Saved(Enqueue))
  {}

  /** An lthread that makes a host call runs application code again only after the host has had the call and has
      completed it. */
  lemma HostCallServed(threads: set<Lt>, cpus: set<Cpu>, first: Lt, run: seq<State>, a: nat, k: nat, x: Lt)
    returns (d: nat)
    requires IsRun(threads, cpus, first, run) && Takes(run, a, CallYield(x)) && a < k < |run| && At(run[k], x, User)
    requires forall j :: a < j < k ==> !At(run[j], x, User)
    ensures a < d < k && x in run[d].inflight && Takes(run, d, HostDone(x))
  {
    YieldStarts(run[a], x);
    d := CallSoFar(threads, cpus, first, run, a, k - 1, x);
    WayNext(threads, cpus, first, run, k - 1, x, true);
  }

  lemma {:induction false} YieldSoFar(threads: set<Lt>, cpus: set<Cpu>, first: Lt, run: seq<State>, a: nat, k: nat,
                                      x: Lt)
    requires IsRun(threads, cpus, first, run) && a < k < |run| && At(run[a + 1], x, Saved(Enqueue))
    requires forall j :: a < j <= k ==> !At(run[j], x, User)
    ensures OnTheWay(run[k], x, false)
    decreases k
  {
    if k > a + 1 {
      YieldSoFar(threads, cpus, first, run, a, k - 1, x);
      WayNext(threads, cpus, first, run, k - 1, x, false);
    }
  }

  /** An lthread that gives up the CPU runs again only from the scheduler queue. */
  lemma YieldQueues(threads: set<Lt>, cpus: set<Cpu>, first: Lt, run: seq<State>, a: nat, k: nat, x: Lt)
    requires IsRun(threads, cpus, first, run) && Takes(run, a, Reschedule(x)) && a < k < |run| && At(run[k], x, User)
    requires forall j :: a < j < k ==> !At(run[j], x, User)
    ensures x in run[k - 1].sched
  {
    YieldStarts(run[a], x);
    YieldSoFar(threads, cpus, first, run, a, k - 1, x);
    WayNext(threads, cpus, first, run, k - 1, x, false);
    RunInv(threads, cpus, first, run, k - 1);
    assert LtOk(run[k - 1], x);
  }

  // ---- the queues -------------------------------------------------------------------------------------------------

  // A queue grows at its end or loses its head.
  ghost predicate QueueMove(q: seq<Lt>, q': seq<Lt>) { q <= q' || (q != [] && q' == q[1..]) }

  // What has been added to a queue with this history, and what has been taken off it.
  ghost function Added(h: seq<seq<Lt>>, j: nat, k: nat): seq<Lt>
    requires k < |h|
    decreases k
  {
    if k <= j then [] else Added(h, j, k - 1) + if h[k - 1] <= h[k] then h[k][|h[k - 1]|..] else []
  }

  ghost function TakenOut(h: seq<seq<Lt>>, j: nat, k: nat): seq<Lt>
    requires k < |h|
    decreases k
  {
    if k <= j then [] else TakenOut(h, j, k - 1) + if h[k - 1] <= h[k] || h[k - 1] == [] then [] else [h[k - 1][0]]
  }

  lemma Grows(start: seq<Lt>, a: seq<Lt>, t: seq<Lt>, q: seq<Lt>, q': seq<Lt>)
    requires start + a == t + q && q <= q'
    ensures start + (a + q'[|q|..]) == (t + []) + q'
  {
    assert q' == q + q'[|q|..];
    assert start + (a + q'[|q|..]) == (start + a) + q'[|q|..];
  }

  lemma Shrinks(start: seq<Lt>, a: seq<Lt>, t: seq<Lt>, q: seq<Lt>)
    requires start + a == t + q && q != []
    ensures start + (a + []) == (t + [q[0]]) + q[1..]
  {
    assert q == [q[0]] + q[1..];
    assert (t + [q[0]]) + q[1..] == t + ([q[0]] + q[1..]);
    assert a + [] == a;
  }

  lemma {:induction false} QueueLaw(h: seq<seq<Lt>>, j: nat, k: nat)
    requires j <= k < |h| && forall t {:trigger h[t]} :: 0 <= t < |h| - 1 ==> QueueMove(h[t], h[t + 1])
    ensures h[j] + Added(h, j, k) == TakenOut(h, j, k) + h[k]
    decreases k
  {
    if j < k {
      QueueLaw(h, j, k - 1);
      var a, t := Added(h, j, k - 1), TakenOut(h, j, k - 1);
      assert QueueMove(h[k - 1], h[k - 1 + 1]);
      if h[k - 1] <= h[k] { Grows(h[j], a, t, h[k - 1], h[k]); } else { Shrinks(h[j], a, t, h[k - 1]); }
    }
  }

  lemma SchedStep(s: State, step: Step)
    requires Enabled(s, step)
    ensures QueueMove(s.sched, Apply(s, step).sched)
    ensures step.Spawn? ==> Apply(s, step).sched == s.sched + [step.y]
  {}

  lemma ReturnStep(s: State, step: Step)
    requires Enabled(s, step)
    ensures QueueMove(s.retq, Apply(s, step).retq)
  {
    var q := Apply(s, step).retq;
    if step.ResumeReturned? {
      assert q == s.retq[1..];
    } else {
      assert q == s.retq + if step.HostDone? then [step.y] else [];
    }
  }

  ghost function SchedHistory(run: seq<State>): seq<seq<Lt>> { seq(|run|, i requires 0 <= i < |run| => run[i].sched) }

  ghost function ReturnHistory(run: seq<State>): seq<seq<Lt>> { seq(|run|, i requires 0 <= i < |run| => run[i].retq) }

  /** The scheduler queue and the return queue are first in first out: what was in a queue and what has been added
      since is, in this order, what has been taken out and what is in it. */
  lemma FirstInFirstOut(threads: set<Lt>, cpus: set<Cpu>, first: Lt, run: seq<State>, j: nat, k: nat)
    requires IsRun(threads, cpus, first, run) && j <= k < |run|
    ensures var h := SchedHistory(run); run[j].sched + Added(h, j, k) == TakenOut(h, j, k) + run[k].sched
    ensures var h := ReturnHistory(run); run[j].retq + Added(h, j, k) == TakenOut(h, j, k) + run[k].retq
  {
    forall t | 0 <= t < |run| - 1
      ensures QueueMove(run[t].sched, run[t + 1].sched) && QueueMove(run[t].retq, run[t + 1].retq)
    {
      var step := StepAt(threads, cpus, first, run, t);
      SchedStep(run[t], step);
      ReturnStep(run[t], step);
    }
    QueueLaw(SchedHistory(run), j, k);
    QueueLaw(ReturnHistory(run), j, k);
  }
}
