/** Lthreads blocking on futexes and host calls, and the schedulers that run them, as an interleaving
    machine (src/sched/futex.c, src/sched/lthread.c, src/include/lthread.h and
    src/host/sgx_hostcall_interface.c).

    Each scheduler (`Cpu`) runs one lthread at a time. An lthread leaves its CPU by saving its context and
    leaving a callback, which the scheduler runs afterwards: it releases the futex lock, submits the
    system call slot or puts the lthread on the scheduler queue. The futex lock is held by one
    actor at a time, as TicketLock shows. The loops of futex_wake, futex_requeue and futex_tick take one
    step per list entry. `ctx` is the context an lthread has saved, the point at which it goes on when it is
    resumed. `pc` records where each lthread is; of an lthread that is not on a CPU it is history, and no
    step looks at it. `waker`, who took the lthread off the list last, is history too. */
module Lthreads {
  import opened Basics

  type Lt = nat
  type Cpu = nat

  const W: int := 0x1_0000_0000

  // A futex is known by the low 32 bits of its address.
  function Key(addr: nat): nat { addr % W }

  /** An entry of the sleeper list. `addr`, `val` (what the waiter expected to find) and `requeued` are
      history. */
  datatype Entry = Entry(lt: Lt, key: nat, bits: bv32, deadline: nat, addr: nat, val: int, requeued: bool)

  datatype Callback = UnlockFutex | Submit | Enqueue

  datatype Ctl =
    | User
    | Wait(addr: nat, val: int, bits: bv32, deadline: nat)
    | Inserted
    | AfterSleep                  // resumed, about to look at the reason
    | Returning(rc: int)          // futex_wait has its result, about to test it
    | Wake(key: nat, num: nat, bits: bv32, i: nat, w: nat, m: nat) // m: matching entries at the start
    | Compare(addr: nat, addr2: nat, num: nat, limit: nat, expected: int)
    | Requeue(key: nat, key2: nat, num: nat, limit: nat, i: nat, w: nat)
    | Unlock
    | Saved(cb: Callback)

  datatype Pc = New | OnCpu(c: Cpu, ctl: Ctl) | Ready | Sleeping | InFlight | Returned | Exited

  datatype CpuState = Looping | Runs(x: Lt) | Ticking(i: nat, now: nat)

  datatype Holder = Nobody | Thread(x: Lt) | Tick(c: Cpu)

  datatype State = State(pc: map<Lt, Pc>, cpu: map<Cpu, CpuState>, lock: Holder, list: seq<Entry>,
                         sched: seq<Lt>, inflight: set<Lt>, retq: seq<Lt>, mem: Memory)

  datatype Memory = Memory(word: map<nat, int>, ctx: map<Lt, Ctl>, err: map<Lt, int>, waker: map<Lt, Holder>)

  datatype Step =
    | Store(x: Lt, addr: nat, v: int)
    | StartWait(x: Lt, addr: nat, val: int, bits: bv32, deadline: nat)
    | ReadWord(x: Lt)
    | SleepYield(x: Lt)
    | CheckReason(x: Lt)
    | TestResult(x: Lt)
    | StartWake(x: Lt, addr: nat, num: nat, bits: bv32)
    | WakeNext(x: Lt)
    | StartCmpRequeue(x: Lt, addr: nat, addr2: nat, num: nat, limit: nat, expected: int)
    | StartRequeue(x: Lt, addr: nat, addr2: nat, num: nat, limit: nat)
    | CompareWord(x: Lt)
    | RequeueNext(x: Lt)
    | StartRefused(x: Lt)
    | Release(x: Lt)
    | CallYield(x: Lt)
    | Reschedule(x: Lt)
    | Spawn(x: Lt, y: Lt)
    | Exit(x: Lt)
    | RunCallback(c: Cpu)
    | HostDone(y: Lt)
    | ResumeReturned(c: Cpu)
    | ResumeReady(c: Cpu)
    | TickStart(c: Cpu, now: nat)       // now: what the clock read before
    | TickNext(c: Cpu)

  ghost function Word(s: State, addr: nat): int { if addr in s.mem.word then s.mem.word[addr] else 0 }

  ghost function Ctx(s: State, x: Lt): Ctl { if x in s.mem.ctx then s.mem.ctx[x] else User }
  ghost function Err(s: State, x: Lt): int { if x in s.mem.err then s.mem.err[x] else FUTEX_NONE }
  ghost function Waker(s: State, x: Lt): Holder { if x in s.mem.waker then s.mem.waker[x] else Nobody }

  predicate Matches(e: Entry, key: nat, bits: bv32) { e.key == key && e.bits & bits != 0 }

  predicate Expired(e: Entry, now: nat) { e.deadline != 0 && e.deadline <= now }

  ghost function CountMatching(l: seq<Entry>, key: nat, bits: bv32): nat {
    if l == [] then 0 else CountMatching(l[1..], key, bits) + if Matches(l[0], key, bits) then 1 else 0
  }

  ghost predicate At(s: State, x: Lt, ctl: Ctl) { x in s.pc && s.pc[x].OnCpu? && s.pc[x].ctl == ctl }

  ghost predicate IsRunning(s: State, x: Lt) { x in s.pc && s.pc[x].OnCpu? }

  ghost predicate IsLooping(s: State, c: Cpu) { c in s.cpu && s.cpu[c].Looping? }

  ghost predicate Enabled(s: State, step: Step) {
    match step
    case Store(x, _, _) => At(s, x, User)
    case StartWait(x, _, _, bits, _) => At(s, x, User) && s.lock.Nobody? && bits != 0
    case ReadWord(x) => IsRunning(s, x) && s.pc[x].ctl.Wait?
    case SleepYield(x) => At(s, x, Inserted)
    case CheckReason(x) => At(s, x, AfterSleep)
    case TestResult(x) => IsRunning(s, x) && s.pc[x].ctl.Returning?
    case StartWake(x, _, num, bits) => At(s, x, User) && s.lock.Nobody? && bits != 0 && num < W
    case WakeNext(x) => IsRunning(s, x) && s.pc[x].ctl.Wake?
    case StartCmpRequeue(x, _, _, num, limit, _) => At(s, x, User) && s.lock.Nobody? && num < W && limit < W
    case StartRequeue(x, _, _, num, limit) => At(s, x, User) && s.lock.Nobody? && num < W && limit < W
    case CompareWord(x) => IsRunning(s, x) && s.pc[x].ctl.Compare?
    case RequeueNext(x) => IsRunning(s, x) && s.pc[x].ctl.Requeue?
    case StartRefused(x) => At(s, x, User) && s.lock.Nobody?
    case Release(x) => At(s, x, Unlock)
    case CallYield(x) => At(s, x, User)
    case Reschedule(x) => At(s, x, User)
    case Spawn(x, y) => At(s, x, User) && y in s.pc && s.pc[y].New?
    case Exit(x) => At(s, x, User)
    case RunCallback(c) => c in s.cpu && s.cpu[c].Runs? && IsRunning(s, s.cpu[c].x) && s.pc[s.cpu[c].x].ctl.Saved?
    case HostDone(y) => y in s.inflight
    case ResumeReturned(c) => IsLooping(s, c) && s.retq != []
    case ResumeReady(c) => IsLooping(s, c) && s.sched != []
    case TickStart(c, _) => IsLooping(s, c) && s.lock.Nobody?
    case TickNext(c) => c in s.cpu && s.cpu[c].Ticking?
  }

  // ---- effects ----------------------------------------------------------------------------------------

  ghost function Go(s: State, x: Lt, ctl: Ctl): State
    requires IsRunning(s, x)
  {
    s.(pc := s.pc[x := OnCpu(s.pc[x].c, ctl)])
  }

  // Entry i leaves the list and its lthread goes to the end of the scheduler queue, with the reason.
  ghost function WakeUp(s: State, i: nat, reason: int): State
    requires i < |s.list|
  {
    var y := s.list[i].lt;
    s.(list := s.list[..i] + s.list[i + 1..], sched := s.sched + [y], pc := s.pc[y := Ready],
       mem := s.mem.(err := s.mem.err[y := reason], waker := s.mem.waker[y := s.lock]))
  }

  // The results that the wait commands return without unlocking.
  predicate Unlocked(rc: int) { rc == 0 || rc == -ETIMEDOUT }

  ghost function Yield(s: State, x: Lt, cb: Callback, at: Ctl): State
    requires IsRunning(s, x)
  {
    Go(s, x, Saved(cb)).(mem := s.mem.(ctx := s.mem.ctx[x := at]))
  }

  ghost function ReadWordEffect(s: State, x: Lt): State
    requires Enabled(s, ReadWord(x))
  {
    var w := s.pc[x].ctl;
    if Word(s, w.addr) == w.val then
      Go(s, x, Inserted).(list := [Entry(x, Key(w.addr), w.bits, w.deadline, w.addr, w.val, false)] + s.list)
    else
      Go(s, x, Returning(-EAGAIN))
  }

  ghost function WakeEffect(s: State, x: Lt): State
    requires Enabled(s, WakeNext(x))
  {
    var Wake(key, num, bits, i, w, m) := s.pc[x].ctl;
    if i >= |s.list| then
      Go(s, x, Unlock)
    else if Matches(s.list[i], key, bits) && w < num then
      WakeUp(Go(s, x, Wake(key, num, bits, i, w + 1, m)), i, FUTEX_NONE)
    else
      Go(s, x, Wake(key, num, bits, i + 1, w, m))
  }

  ghost function RequeueEffect(s: State, x: Lt): State
    requires Enabled(s, RequeueNext(x))
  {
    var Requeue(key, key2, num, limit, i, w) := s.pc[x].ctl;
    if i >= |s.list| then
      Go(s, x, Unlock)
    else if s.list[i].key == key && w < num then
      WakeUp(Go(s, x, Requeue(key, key2, num, limit, i, w + 1)), i, FUTEX_NONE)
    else if s.list[i].key == key && w < (num + limit) % W then
      var e := s.list[i].(key := key2, requeued := true);
      Go(s, x, Requeue(key, key2, num, limit, i + 1, w + 1)).(list := s.list[i := e])
    else
      Go(s, x, Requeue(key, key2, num, limit, i + 1, w))
  }

  ghost function CallbackEffect(s: State, c: Cpu): State
    requires Enabled(s, RunCallback(c))
  {
    var x := s.cpu[c].x;
    var s1 := s.(cpu := s.cpu[c := Looping]);
    match s.pc[x].ctl.cb
    case UnlockFutex => s1.(lock := Nobody, pc := s.pc[x := Sleeping])
    case Submit => s1.(inflight := s.inflight + {x}, pc := s.pc[x := InFlight])
    case Enqueue => s1.(sched := s.sched + [x], pc := s.pc[x := Ready])
  }

  ghost function Resume(s: State, c: Cpu, x: Lt): State {
    s.(cpu := s.cpu[c := Runs(x)], pc := s.pc[x := OnCpu(c, Ctx(s, x))])
  }

  ghost function TickEffect(s: State, c: Cpu): State
    requires Enabled(s, TickNext(c))
  {
    var Ticking(i, now) := s.cpu[c];
    if i >= |s.list| then
      s.(lock := Nobody, cpu := s.cpu[c := Looping])
    else if Expired(s.list[i], now) then
      WakeUp(s, i, FUTEX_EXPIRED)
    else
      s.(cpu := s.cpu[c := Ticking(i + 1, now)])
  }

  ghost function Apply(s: State, step: Step): State
    requires Enabled(s, step)
  {
    match step
    case Store(x, addr, v) => s.(mem := s.mem.(word := s.mem.word[addr := v]))
    case StartWait(x, addr, val, bits, deadline) => Go(s, x, Wait(addr, val, bits, deadline)).(lock := Thread(x))
    case ReadWord(x) => ReadWordEffect(s, x)
    case SleepYield(x) => Yield(s, x, UnlockFutex, AfterSleep)
    case CheckReason(x) => Go(s, x, Returning(if Err(s, x) == FUTEX_EXPIRED then -ETIMEDOUT else 0))
    case TestResult(x) => Go(s, x, if Unlocked(s.pc[x].ctl.rc) then User else Unlock)
    case StartWake(x, addr, num, bits) =>
      Go(s, x, Wake(Key(addr), num, bits, 0, 0, CountMatching(s.list, Key(addr), bits))).(lock := Thread(x))
    case WakeNext(x) => WakeEffect(s, x)
    case StartCmpRequeue(x, addr, addr2, num, limit, expected) =>
      Go(s, x, Compare(addr, addr2, num, limit, expected)).(lock := Thread(x))
    case StartRequeue(x, addr, addr2, num, limit) =>
      Go(s, x, Requeue(Key(addr), Key(addr2), num, limit, 0, 0)).(lock := Thread(x))
    case CompareWord(x) =>
      var k := s.pc[x].ctl;
      if Word(s, k.addr) == k.expected then Go(s, x, Requeue(Key(k.addr), Key(k.addr2), k.num, k.limit, 0, 0))
      else Go(s, x, Unlock)
    case RequeueNext(x) => RequeueEffect(s, x)
    case StartRefused(x) => Go(s, x, Unlock).(lock := Thread(x))
    case Release(x) => Go(s, x, User).(lock := Nobody)
    case CallYield(x) => Yield(s, x, Submit, User)
    case Reschedule(x) => Yield(s, x, Enqueue, User)
    case Spawn(x, y) => s.(sched := s.sched + [y], pc := s.pc[y := Ready])
    case Exit(x) => s.(cpu := s.cpu[s.pc[x].c := Looping], pc := s.pc[x := Exited])
    case RunCallback(c) => CallbackEffect(s, c)
    case HostDone(y) => s.(inflight := s.inflight - {y}, retq := s.retq + [y], pc := s.pc[y := Returned])
    case ResumeReturned(c) => Resume(s, c, s.retq[0]).(retq := s.retq[1..])
    case ResumeReady(c) => Resume(s, c, s.sched[0]).(sched := s.sched[1..])
    case TickStart(c, now) => s.(lock := Tick(c), cpu := s.cpu[c := Ticking(0, now)])
    case TickNext(c) => TickEffect(s, c)
  }

  ghost function Init(threads: set<Lt>, cpus: set<Cpu>, first: Lt): State {
    State(map x | x in threads :: if x == first then Ready else New, map c | c in cpus :: Looping,
          Nobody, [], [first], {}, [], Memory(map[], map[], map[], map[]))
  }

  ghost predicate Follows(s: State, s': State) { exists step :: Enabled(s, step) && s' == Apply(s, step) }

  ghost predicate Linked(run: seq<State>, k: int)
    requires 0 <= k < |run| - 1
  {
    Follows(run[k], run[k + 1])
  }

  ghost predicate IsRun(threads: set<Lt>, cpus: set<Cpu>, first: Lt, run: seq<State>) {
    && first in threads && run != [] && run[0] == Init(threads, cpus, first)
    && forall k :: 0 <= k < |run| - 1 ==> Linked(run, k)
  }

  // ---- invariant --------------------------------------------------------------------------------------

  ghost predicate Distinct(l: seq<Entry>) { forall a, b :: 0 <= a < b < |l| ==> l[a].lt != l[b].lt }

  ghost predicate InList(l: seq<Entry>, x: Lt) { exists a :: 0 <= a < |l| && l[a].lt == x }

  ghost predicate Holds(pc: Pc) {
    && pc.OnCpu? && !pc.ctl.User? && !pc.ctl.AfterSleep? && (pc.ctl.Saved? ==> pc.ctl.cb.UnlockFutex?)
    && (pc.ctl.Returning? ==> !Unlocked(pc.ctl.rc))
  }

  // A sleeper has been told the truth about why it was woken.
  ghost predicate ToldWhy(s: State, x: Lt) {
    !Waker(s, x).Nobody? && (Err(s, x) == FUTEX_EXPIRED <==> Waker(s, x).Tick?)
  }

  // Where an lthread goes on when it is resumed, and what it will find there.
  ghost predicate ContextOk(s: State, x: Lt)
    requires x in s.pc
  {
    match s.pc[x]
    case Sleeping => Ctx(s, x) == AfterSleep
    case Ready => Ctx(s, x) == User || (Ctx(s, x) == AfterSleep && ToldWhy(s, x))
    case Exited => true
    case OnCpu(_, ctl) =>
      && (ctl.Saved? ==> Ctx(s, x) == if ctl.cb.UnlockFutex? then AfterSleep else User)
      && (ctl.AfterSleep? ==> ToldWhy(s, x))
      && (ctl.Returning? ==>
            || ctl.rc == -EAGAIN
            || (!Waker(s, x).Nobody? && ctl.rc == if Waker(s, x).Tick? then -ETIMEDOUT else 0))
    case _ => Ctx(s, x) == User
  }

  // The entry of such an lthread is on the list.
  ghost predicate Listed(pc: Pc) {
    pc.Sleeping? || (pc.OnCpu? && (pc.ctl.Inserted? || pc.ctl == Saved(UnlockFutex)))
  }

  ghost predicate LtOk(s: State, x: Lt)
    requires x in s.pc
  {
    && (x in s.sched <==> s.pc[x].Ready?)
    && (x in s.retq <==> s.pc[x].Returned?)
    && (x in s.inflight <==> s.pc[x].InFlight?)
    && (InList(s.list, x) <==> Listed(s.pc[x]))
    && (s.lock == Thread(x) <==> Holds(s.pc[x]))
    && (s.pc[x].OnCpu? ==> s.pc[x].c in s.cpu && s.cpu[s.pc[x].c] == Runs(x))
  }

  ghost predicate CpuOk(s: State, c: Cpu)
    requires c in s.cpu
  {
    && (s.cpu[c].Ticking? <==> s.lock == Tick(c))
    && (s.cpu[c].Ticking? ==> s.cpu[c].i <= |s.list|)
    && (s.cpu[c].Runs? ==> s.cpu[c].x in s.pc && s.pc[s.cpu[c].x].OnCpu? && s.pc[s.cpu[c].x].c == c)
  }

  ghost predicate Known(s: State, x: Lt) {
    x in s.sched || x in s.retq || x in s.inflight || InList(s.list, x) || s.lock == Thread(x) ==> x in s.pc
  }

  ghost predicate EntryOk(e: Entry) { e.bits != 0 && (!e.requeued ==> e.key == Key(e.addr)) }

  ghost predicate NoMatch(l: seq<Entry>, i: int, key: nat, bits: bv32)
    requires i <= |l|
  {
    forall a :: 0 <= a < i ==> !Matches(l[a], key, bits)
  }

  // What the lock holder knows in the middle of its work.
  ghost predicate WorkOk(s: State, ctl: Ctl) {
    match ctl
    case Wait(_, _, bits, _) => bits != 0
    case Wake(key, num, bits, i, w, m) =>
      && i <= |s.list| && w <= num && CountMatching(s.list, key, bits) + w == m
      && (w < num ==> NoMatch(s.list, i, key, bits))
    case Requeue(_, _, _, _, i, _) => i <= |s.list|
    case _ => true
  }

  ghost predicate HolderOk(s: State) {
    s.lock.Thread? && s.lock.x in s.pc && s.pc[s.lock.x].OnCpu? ==> WorkOk(s, s.pc[s.lock.x].ctl)
  }

  ghost predicate Inv(s: State) {
    && NoDup(s.sched) && NoDup(s.retq) && Distinct(s.list)
    && (forall x :: Known(s, x))
    && (forall x :: x in s.pc ==> LtOk(s, x))
    && (forall c :: c in s.cpu ==> CpuOk(s, c))
    && (forall a :: 0 <= a < |s.list| ==> EntryOk(s.list[a]))
    && (s.lock.Tick? ==> s.lock.c in s.cpu) && HolderOk(s)
  }

  ghost predicate Contexts(s: State) { forall x :: x in s.pc ==> ContextOk(s, x) }

  // ---- a step moves few lthreads ------------------------------------------------------------------------

  ghost predicate SameLt(s: State, s': State, y: Lt)
    requires y in s.pc && y in s'.pc
  {
    && s'.pc[y] == s.pc[y]
    && (y in s'.sched <==> y in s.sched) && (y in s'.retq <==> y in s.retq)
    && (y in s'.inflight <==> y in s.inflight) && (InList(s'.list, y) <==> InList(s.list, y))
    && (s'.lock == Thread(y) <==> s.lock == Thread(y))
    && (s.pc[y].OnCpu? && s.pc[y].c in s.cpu && s.cpu[s.pc[y].c] == Runs(y) ==>
          s.pc[y].c in s'.cpu && s'.cpu[s.pc[y].c] == Runs(y))
  }

  ghost predicate Only(s: State, s': State, moved: set<Lt>) {
    && s'.pc.Keys == s.pc.Keys && s'.cpu.Keys == s.cpu.Keys
    && forall y :: y in s.pc && y !in moved ==> SameLt(s, s', y)
  }

  // The step takes an entry off the list.
  ghost predicate Wakes(s: State, step: Step)
    requires Enabled(s, step)
  {
    match step
    case WakeNext(x) =>
      var k := s.pc[x].ctl;
      k.i < |s.list| && Matches(s.list[k.i], k.key, k.bits) && k.w < k.num
    case RequeueNext(x) =>
      var k := s.pc[x].ctl;
      k.i < |s.list| && s.list[k.i].key == k.key && k.w < k.num
    case TickNext(c) => s.cpu[c].i < |s.list| && Expired(s.list[s.cpu[c].i], s.cpu[c].now)
    case _ => false
  }

  lemma AllLtOk(s: State, s': State, moved: set<Lt>)
    requires Inv(s) && Only(s, s', moved) && forall y :: y in moved && y in s'.pc ==> LtOk(s', y)
    ensures forall y :: y in s'.pc ==> LtOk(s', y)
  {
    forall y | y in s'.pc ensures LtOk(s', y) {
      if y !in moved { assert LtOk(s, y) && SameLt(s, s', y); }
    }
  }

  // How an lthread that keeps its CPU may change the state on its own.
  ghost predicate Private(s: State, s': State, x: Lt) {
    && IsRunning(s, x) && IsRunning(s', x)
    && s' == s.(pc := s.pc[x := s'.pc[x]], list := s'.list, lock := s'.lock, mem := s'.mem)
    && s'.pc[x].c == s.pc[x].c
    && (s'.lock == Thread(x) <==> Holds(s'.pc[x]))
    && (s'.lock == s.lock || ((s.lock.Nobody? || s.lock == Thread(x)) && (s'.lock.Nobody? || s'.lock == Thread(x))))
    && (forall y :: y != x ==> (InList(s'.list, y) <==> InList(s.list, y)))
    && (InList(s'.list, x) <==> Listed(s'.pc[x])) && Distinct(s'.list) && |s.list| <= |s'.list|
    && (forall a :: 0 <= a < |s'.list| ==> EntryOk(s'.list[a]))
    && (if s'.lock == Thread(x) then WorkOk(s', s'.pc[x].ctl) else s'.list == s.list)
  }

  lemma PrivateInv(s: State, s': State, x: Lt)
    requires Inv(s) && Private(s, s', x)
    ensures Inv(s')
  {
    assert LtOk(s, x);
    forall y | y in s.pc && y !in {x} ensures SameLt(s, s', y) { assert LtOk(s, y); }
    AllLtOk(s, s', {x});
    forall y ensures Known(s', y) { assert Known(s, y); }
    forall c | c in s'.cpu ensures CpuOk(s', c) { assert CpuOk(s, c); }
  }

  lemma InListCons(e: Entry, l: seq<Entry>, y: Lt)
    ensures InList([e] + l, y) <==> e.lt == y || InList(l, y)
  {
    if a :| 0 <= a < |l| && l[a].lt == y { assert ([e] + l)[a + 1].lt == y; }
    if e.lt == y { assert ([e] + l)[0].lt == y; }
  }

  lemma ReadWordInv(s: State, x: Lt)
    requires Inv(s) && Enabled(s, ReadWord(x))
    ensures Inv(Apply(s, ReadWord(x)))
  {
    var s' := Apply(s, ReadWord(x));
    assert LtOk(s, x);
    assert HolderOk(s);
    if s'.pc[x].ctl.Inserted? {
      forall y ensures InList(s'.list, y) <==> y == x || InList(s.list, y) { InListCons(s'.list[0], s.list, y); }
    }
    PrivateInv(s, s', x);
  }

  lemma StartInv(s: State, step: Step)
    requires Inv(s) && Enabled(s, step)
    requires Starts(step)
    ensures Inv(Apply(s, step))
  {
    assert LtOk(s, step.x);
    PrivateInv(s, Apply(s, step), step.x);
  }

  ghost predicate Misc(step: Step) {
    || step.Store? || step.SleepYield? || step.CheckReason? || step.TestResult? || step.CompareWord?
    || step.Release? || step.CallYield? || step.Reschedule?
  }

  lemma MiscInv(s: State, step: Step)
    requires Inv(s) && Enabled(s, step)
    requires Misc(step)
    ensures Inv(Apply(s, step))
  {
    assert LtOk(s, step.x);
    var s' := Apply(s, step);
    if step.Store? { assert s.pc == s.pc[step.x := s.pc[step.x]]; }
    PrivateInv(s, s', step.x);
  }

  lemma WakeMoveInv(s: State, x: Lt)
    requires Inv(s) && Enabled(s, WakeNext(x)) && !Wakes(s, WakeNext(x))
    ensures Inv(Apply(s, WakeNext(x)))
  {
    assert LtOk(s, x);
    PrivateInv(s, Apply(s, WakeNext(x)), x);
  }

  lemma InListRekey(l: seq<Entry>, i: nat, e: Entry, y: Lt)
    requires i < |l| && e.lt == l[i].lt
    ensures InList(l[i := e], y) <==> InList(l, y)
  {
    var l' := l[i := e];
    if a :| 0 <= a < |l| && l[a].lt == y { assert l'[a].lt == y; }
    if a :| 0 <= a < |l'| && l'[a].lt == y { assert l[a].lt == y; }
  }

  lemma RequeueMoveInv(s: State, x: Lt)
    requires Inv(s) && Enabled(s, RequeueNext(x)) && !Wakes(s, RequeueNext(x))
    ensures Inv(Apply(s, RequeueNext(x)))
  {
    var s', i := Apply(s, RequeueNext(x)), s.pc[x].ctl.i;
    assert LtOk(s, x);
    if i < |s.list| {
      assert EntryOk(s.list[i]);
      assert s'.list == s.list[i := s'.list[i]];
      forall y ensures InList(s'.list, y) <==> InList(s.list, y) { InListRekey(s.list, i, s'.list[i], y); }
    }
    PrivateInv(s, s', x);
  }

  // ---- waking -------------------------------------------------------------------------------------------

  ghost function Without(l: seq<Entry>, i: nat): seq<Entry>
    requires i < |l|
  {
    l[..i] + l[i + 1..]
  }

  lemma InListWithout(l: seq<Entry>, i: nat, y: Lt)
    requires Distinct(l) && i < |l|
    ensures InList(Without(l, i), y) <==> InList(l, y) && y != l[i].lt
  {
    var l' := Without(l, i);
    if a :| 0 <= a < |l| && l[a].lt == y && a != i { assert l'[if a < i then a else a - 1].lt == y; }
    if a :| 0 <= a < |l'| && l'[a].lt == y { assert l[if a < i then a else a + 1].lt == y; }
  }

  lemma DistinctWithout(l: seq<Entry>, i: nat)
    requires Distinct(l) && i < |l|
    ensures Distinct(Without(l, i))
    ensures forall a :: 0 <= a < |l| - 1 ==> Without(l, i)[a] == l[if a < i then a else a + 1]
  {}

  lemma {:induction false} CountAppend(a: seq<Entry>, b: seq<Entry>, key: nat, bits: bv32)
    ensures CountMatching(a + b, key, bits) == CountMatching(a, key, bits) + CountMatching(b, key, bits)
  {
    if a == [] {
      assert a + b == b;
    } else {
      CountAppend(a[1..], b, key, bits);
      assert (a + b)[1..] == a[1..] + b;
    }
  }

  lemma CountWithout(l: seq<Entry>, i: nat, key: nat, bits: bv32)
    requires i < |l| && Matches(l[i], key, bits)
    ensures CountMatching(Without(l, i), key, bits) + 1 == CountMatching(l, key, bits)
  {
    CountAppend(l[..i], l[i + 1..], key, bits);
    CountAppend(l[..i], l[i..], key, bits);
    assert l == l[..i] + l[i..] && l[i..][1..] == l[i + 1..];
  }

  /** Whoever holds the futex lock without being about to sleep finds only lthreads on the list that have
      left their CPU for good. */
  lemma AsleepOnList(s: State, i: nat)
    requires Inv(s) && i < |s.list| && !s.lock.Nobody?
    requires s.lock.Thread? ==> s.lock.x in s.pc && !Listed(s.pc[s.lock.x])
    ensures s.list[i].lt in s.pc && s.pc[s.list[i].lt].Sleeping?
    ensures forall c :: c in s.cpu ==> s.cpu[c] != Runs(s.list[i].lt)
  {
    var y := s.list[i].lt;
    assert InList(s.list, y) && Known(s, y) && LtOk(s, y);
    forall c | c in s.cpu ensures s.cpu[c] != Runs(y) { assert CpuOk(s, c); }
  }

  // What waking entry i does to the state; the lthread x that wakes moves on in its loop.
  ghost predicate Woke(s: State, s': State, i: nat, x: Lt, ctl: Ctl) {
    && IsRunning(s, x) && i < |s.list| && s.lock == Thread(x) && !Listed(s.pc[x]) && x != s.list[i].lt
    && s' == s.(list := Without(s.list, i), sched := s.sched + [s.list[i].lt],
                pc := s.pc[x := OnCpu(s.pc[x].c, ctl)][s.list[i].lt := Ready],
                mem := s'.mem)
    && (ctl.Wake? || ctl.Requeue?) && WorkOk(s', ctl)
  }

  lemma WokeInv(s: State, s': State, i: nat, x: Lt, ctl: Ctl)
    requires Inv(s) && Woke(s, s', i, x, ctl)
    ensures Inv(s')
  {
    var y := s.list[i].lt;
    AsleepOnList(s, i);
    DistinctWithout(s.list, i);
    forall z ensures InList(s'.list, z) <==> InList(s.list, z) && z != y { InListWithout(s.list, i, z); }
    assert LtOk(s, x) && LtOk(s, y);
    forall z | z in s.pc && z !in {x, y} ensures SameLt(s, s', z) {}
    AllLtOk(s, s', {x, y});
    forall z ensures Known(s', z) { assert Known(s, z); }
    forall c | c in s'.cpu ensures CpuOk(s', c) { assert CpuOk(s, c); }
  }

  lemma WakeWakesInv(s: State, x: Lt)
    requires Inv(s) && Enabled(s, WakeNext(x)) && Wakes(s, WakeNext(x))
    ensures Inv(Apply(s, WakeNext(x)))
  {
    var Wake(key, num, bits, i, w, m) := s.pc[x].ctl;
    var s' := Apply(s, WakeNext(x));
    assert LtOk(s, x);
    AsleepOnList(s, i);
    CountWithout(s.list, i, key, bits);
    assert s'.list == Without(s.list, i);
    WokeInv(s, s', i, x, Wake(key, num, bits, i, w + 1, m));
  }

  lemma RequeueWakesInv(s: State, x: Lt)
    requires Inv(s) && Enabled(s, RequeueNext(x)) && Wakes(s, RequeueNext(x))
    ensures Inv(Apply(s, RequeueNext(x)))
  {
    var Requeue(key, key2, num, limit, i, w) := s.pc[x].ctl;
    var s' := Apply(s, RequeueNext(x));
    assert LtOk(s, x);
    AsleepOnList(s, i);
    assert s'.list == Without(s.list, i);
    WokeInv(s, s', i, x, Requeue(key, key2, num, limit, i, w + 1));
  }

  lemma TickWakesInv(s: State, c: Cpu)
    requires Inv(s) && Enabled(s, TickNext(c)) && Wakes(s, TickNext(c))
    ensures Inv(Apply(s, TickNext(c)))
  {
    var s', i := Apply(s, TickNext(c)), s.cpu[c].i;
    var y := s.list[i].lt;
    assert CpuOk(s, c);
    AsleepOnList(s, i);
    DistinctWithout(s.list, i);
    assert s'.list == Without(s.list, i);
    forall z ensures InList(s'.list, z) <==> InList(s.list, z) && z != y { InListWithout(s.list, i, z); }
    assert LtOk(s, y);
    forall z | z in s.pc && z !in {y} ensures SameLt(s, s', z) {}
    AllLtOk(s, s', {y});
    forall z ensures Known(s', z) { assert Known(s, z); }
    forall d | d in s'.cpu ensures CpuOk(s', d) { assert CpuOk(s, d); }
  }

  // ---- the scheduler --------------------------------------------------------------------------------------

  lemma TickMovesInv(s: State, step: Step)
    requires Inv(s) && Enabled(s, step) && (step.TickStart? || step.TickNext?) && !Wakes(s, step)
    ensures Inv(Apply(s, step))
  {
    var s' := Apply(s, step);
    assert CpuOk(s, step.c);
    forall z | z in s.pc && z !in {} ensures SameLt(s, s', z) { assert LtOk(s, z); }
    AllLtOk(s, s', {});
    forall z ensures Known(s', z) { assert Known(s, z); }
    forall d | d in s'.cpu ensures CpuOk(s', d) { assert CpuOk(s, d); }
  }

  lemma SpawnInv(s: State, x: Lt, y: Lt)
    requires Inv(s) && Enabled(s, Spawn(x, y))
    ensures Inv(Apply(s, Spawn(x, y)))
  {
    var s' := Apply(s, Spawn(x, y));
    assert LtOk(s, y);
    forall z | z in s.pc && z !in {y} ensures SameLt(s, s', z) {}
    AllLtOk(s, s', {y});
    forall z ensures Known(s', z) { assert Known(s, z); }
    forall d | d in s'.cpu ensures CpuOk(s', d) { assert CpuOk(s, d); }
  }

  lemma HostDoneInv(s: State, y: Lt)
    requires Inv(s) && Enabled(s, HostDone(y))
    ensures Inv(Apply(s, HostDone(y)))
  {
    var s' := Apply(s, HostDone(y));
    assert Known(s, y) && LtOk(s, y);
    forall z | z in s.pc && z !in {y} ensures SameLt(s, s', z) {}
    AllLtOk(s, s', {y});
    forall z ensures Known(s', z) { assert Known(s, z); }
    forall d | d in s'.cpu ensures CpuOk(s', d) { assert CpuOk(s, d); }
  }

  lemma ExitInv(s: State, x: Lt)
    requires Inv(s) && Enabled(s, Exit(x))
    ensures Inv(Apply(s, Exit(x)))
  {
    var s' := Apply(s, Exit(x));
    assert LtOk(s, x);
    forall z | z in s.pc && z !in {x} ensures SameLt(s, s', z) { assert LtOk(s, z); }
    AllLtOk(s, s', {x});
    forall z ensures Known(s', z) { assert Known(s, z); }
    forall d | d in s'.cpu ensures CpuOk(s', d) { assert CpuOk(s, d); }
  }

  lemma UnlockCallbackInv(s: State, c: Cpu, x: Lt)
    requires Inv(s) && Enabled(s, RunCallback(c)) && x == s.cpu[c].x && s.pc[x].ctl.cb.UnlockFutex?
    ensures Inv(Apply(s, RunCallback(c)))
  {
    assert CpuOk(s, c);
    var s' := Apply(s, RunCallback(c));
    assert LtOk(s, x);
    forall z | z in s.pc && z !in {x} ensures SameLt(s, s', z) { assert LtOk(s, z); }
    AllLtOk(s, s', {x});
    forall z ensures Known(s', z) { assert Known(s, z); }
    forall d | d in s'.cpu ensures CpuOk(s', d) { assert CpuOk(s, d); }
  }

  lemma SubmitCallbackInv(s: State, c: Cpu, x: Lt)
    requires Inv(s) && Enabled(s, RunCallback(c)) && x == s.cpu[c].x && s.pc[x].ctl.cb.Submit?
    ensures Inv(Apply(s, RunCallback(c)))
  {
    assert CpuOk(s, c);
    var s' := Apply(s, RunCallback(c));
    assert LtOk(s, x);
    forall z | z in s.pc && z !in {x} ensures SameLt(s, s', z) { assert LtOk(s, z); }
    AllLtOk(s, s', {x});
    forall z ensures Known(s', z) { assert Known(s, z); }
    forall d | d in s'.cpu ensures CpuOk(s', d) { assert CpuOk(s, d); }
  }

  lemma EnqueueCallbackInv(s: State, c: Cpu, x: Lt)
    requires Inv(s) && Enabled(s, RunCallback(c)) && x == s.cpu[c].x && s.pc[x].ctl.cb.Enqueue?
    ensures Inv(Apply(s, RunCallback(c)))
  {
    assert CpuOk(s, c);
    var s' := Apply(s, RunCallback(c));
    assert LtOk(s, x);
    forall z | z in s.pc && z !in {x} ensures SameLt(s, s', z) { assert LtOk(s, z); }
    AllLtOk(s, s', {x});
    forall z ensures Known(s', z) { assert Known(s, z); }
    forall d | d in s'.cpu ensures CpuOk(s', d) { assert CpuOk(s, d); }
  }

  lemma ResumeReadyInv(s: State, c: Cpu)
    requires Inv(s) && Contexts(s) && Enabled(s, ResumeReady(c))
    ensures Inv(Apply(s, ResumeReady(c)))
  {
    var s', x := Apply(s, ResumeReady(c)), s.sched[0];
    assert x in s.sched && Known(s, x) && LtOk(s, x) && CpuOk(s, c) && ContextOk(s, x);
    forall z ensures z in s'.sched <==> z in s.sched && z != x { Tail(s.sched, z); }
    Tail(s.sched, x);
    forall z | z in s.pc && z !in {x} ensures SameLt(s, s', z) { assert LtOk(s, z); }
    AllLtOk(s, s', {x});
    forall z ensures Known(s', z) { assert Known(s, z); }
    forall d | d in s'.cpu ensures CpuOk(s', d) { assert CpuOk(s, d); }
  }

  lemma ResumeReturnedInv(s: State, c: Cpu)
    requires Inv(s) && Contexts(s) && Enabled(s, ResumeReturned(c))
    ensures Inv(Apply(s, ResumeReturned(c)))
  {
    var s', x := Apply(s, ResumeReturned(c)), s.retq[0];
    assert x in s.retq && Known(s, x) && LtOk(s, x) && CpuOk(s, c) && ContextOk(s, x);
    forall z ensures z in s'.retq <==> z in s.retq && z != x { Tail(s.retq, z); }
    Tail(s.retq, x);
    forall z | z in s.pc && z !in {x} ensures SameLt(s, s', z) { assert LtOk(s, z); }
    AllLtOk(s, s', {x});
    forall z ensures Known(s', z) { assert Known(s, z); }
    forall d | d in s'.cpu ensures CpuOk(s', d) { assert CpuOk(s, d); }
  }

  lemma SchedulerInv(s: State, step: Step)
    requires Inv(s) && Contexts(s) && Enabled(s, step)
    requires step.RunCallback? || step.ResumeReady? || step.ResumeReturned? || step.TickStart? || step.TickNext?
    ensures Inv(Apply(s, step))
  {
    if step.RunCallback? {
      var x := s.cpu[step.c].x;
      match s.pc[x].ctl.cb
      case UnlockFutex => UnlockCallbackInv(s, step.c, x);
      case Submit => SubmitCallbackInv(s, step.c, x);
      case Enqueue => EnqueueCallbackInv(s, step.c, x);
    } else if step.ResumeReady? {
      ResumeReadyInv(s, step.c);
    } else if step.ResumeReturned? {
      ResumeReturnedInv(s, step.c);
    } else if Wakes(s, step) {
      TickWakesInv(s, step.c);
    } else {
      TickMovesInv(s, step);
    }
  }

  lemma LoopInv(s: State, step: Step)
    requires Inv(s) && Enabled(s, step) && (step.WakeNext? || step.RequeueNext?)
    ensures Inv(Apply(s, step))
  {
    match step
    case WakeNext(x) => if Wakes(s, step) { WakeWakesInv(s, x); } else { WakeMoveInv(s, x); }
    case RequeueNext(x) => if Wakes(s, step) { RequeueWakesInv(s, x); } else { RequeueMoveInv(s, x); }
  }

  lemma StepInv(s: State, step: Step)
    requires Inv(s) && Contexts(s) && Enabled(s, step)
    ensures Inv(Apply(s, step))
  {
    if Starts(step) {
      StartInv(s, step);
    } else if step.WakeNext? || step.RequeueNext? {
      LoopInv(s, step);
    } else if step.ReadWord? {
      ReadWordInv(s, step.x);
    } else if step.Spawn? {
      SpawnInv(s, step.x, step.y);
    } else if step.HostDone? {
      HostDoneInv(s, step.y);
    } else if step.Exit? {
      ExitInv(s, step.x);
    } else if Misc(step) {
      MiscInv(s, step);
    } else {
      SchedulerInv(s, step);
    }
  }

  // ---- saved contexts and reasons -------------------------------------------------------------------------

  lemma WakeContext(s: State, step: Step, y: Lt)
    requires Inv(s) && Enabled(s, step) && Wakes(s, step) && y in s.pc && ContextOk(s, y)
    ensures y in Apply(s, step).pc && ContextOk(Apply(s, step), y)
  {
    if step.TickNext? {
      assert CpuOk(s, step.c);
      AsleepOnList(s, s.cpu[step.c].i);
    } else {
      assert LtOk(s, step.x);
      AsleepOnList(s, s.pc[step.x].ctl.i);
    }
  }

  lemma ResumeContext(s: State, step: Step, y: Lt)
    requires Inv(s) && Enabled(s, step) && (step.ResumeReady? || step.ResumeReturned?) && y in s.pc && ContextOk(s, y)
    ensures y in Apply(s, step).pc && ContextOk(Apply(s, step), y)
  {
    var x := if step.ResumeReady? then s.sched[0] else s.retq[0];
    assert Known(s, x) && LtOk(s, x);
  }

  lemma CallbackContext(s: State, step: Step, y: Lt)
    requires Inv(s) && Enabled(s, step) && !Wakes(s, step) && y in s.pc && ContextOk(s, y)
    requires step.RunCallback?
    ensures y in Apply(s, step).pc && ContextOk(Apply(s, step), y)
  {}

  lemma PlaceContext(s: State, step: Step, y: Lt)
    requires Inv(s) && Enabled(s, step) && !Wakes(s, step) && y in s.pc && ContextOk(s, y)
    requires step.HostDone? || step.Exit? || step.Spawn?
    ensures y in Apply(s, step).pc && ContextOk(Apply(s, step), y)
  {
    if step.HostDone? { assert Known(s, step.y) && LtOk(s, step.y); }
  }

  lemma TickContext(s: State, step: Step, y: Lt)
    requires Inv(s) && Enabled(s, step) && !Wakes(s, step) && y in s.pc && ContextOk(s, y)
    requires step.TickStart? || step.TickNext?
    ensures y in Apply(s, step).pc && ContextOk(Apply(s, step), y)
  {}

  lemma YieldContext(s: State, step: Step, y: Lt)
    requires Inv(s) && Enabled(s, step) && !Wakes(s, step) && y in s.pc && ContextOk(s, y)
    requires step.SleepYield? || step.CallYield? || step.Reschedule?
    ensures y in Apply(s, step).pc && ContextOk(Apply(s, step), y)
  {}

  lemma MiscContext(s: State, step: Step, y: Lt)
    requires Inv(s) && Enabled(s, step) && !Wakes(s, step) && y in s.pc && ContextOk(s, y)
    requires Misc(step)
    ensures y in Apply(s, step).pc && ContextOk(Apply(s, step), y)
  {
    if step.SleepYield? || step.CallYield? || step.Reschedule? { YieldContext(s, step, y); }
  }

  lemma StartContext(s: State, step: Step, y: Lt)
    requires Inv(s) && Enabled(s, step) && !Wakes(s, step) && y in s.pc && ContextOk(s, y)
    requires Starts(step)
    ensures y in Apply(s, step).pc && ContextOk(Apply(s, step), y)
  {}

  lemma ReadContext(s: State, step: Step, y: Lt)
    requires Inv(s) && Enabled(s, step) && !Wakes(s, step) && y in s.pc && ContextOk(s, y)
    requires step.ReadWord?
    ensures y in Apply(s, step).pc && ContextOk(Apply(s, step), y)
  {}

  lemma WakeLoopContext(s: State, step: Step, y: Lt)
    requires Inv(s) && Enabled(s, step) && !Wakes(s, step) && y in s.pc && ContextOk(s, y)
    requires step.WakeNext?
    ensures y in Apply(s, step).pc && ContextOk(Apply(s, step), y)
  {}

  lemma RequeueLoopContext(s: State, step: Step, y: Lt)
    requires Inv(s) && Enabled(s, step) && !Wakes(s, step) && y in s.pc && ContextOk(s, y)
    requires step.RequeueNext?
    ensures y in Apply(s, step).pc && ContextOk(Apply(s, step), y)
  {}

  ghost predicate Starts(step: Step) {
    step.StartWait? || step.StartWake? || step.StartCmpRequeue? || step.StartRequeue? || step.StartRefused?
  }

  lemma StepContexts(s: State, step: Step)
    requires Inv(s) && Contexts(s) && Enabled(s, step) && Apply(s, step).pc.Keys == s.pc.Keys
    ensures Contexts(Apply(s, step))
  {
    forall y | y in s.pc ensures ContextOk(Apply(s, step), y) {
      if Wakes(s, step) {
        WakeContext(s, step, y);
      } else if step.ResumeReady? || step.ResumeReturned? {
        ResumeContext(s, step, y);
      } else if Misc(step) {
        MiscContext(s, step, y);
      } else if Starts(step) {
        StartContext(s, step, y);
      } else if step.ReadWord? {
        ReadContext(s, step, y);
      } else if step.WakeNext? {
        WakeLoopContext(s, step, y);
      } else if step.RequeueNext? {
        RequeueLoopContext(s, step, y);
      } else if step.RunCallback? {
        CallbackContext(s, step, y);
      } else if step.TickStart? || step.TickNext? {
        TickContext(s, step, y);
      } else {
        PlaceContext(s, step, y);
      }
    }
  }

  lemma InitInv(threads: set<Lt>, cpus: set<Cpu>, first: Lt)
    requires first in threads
    ensures Inv(Init(threads, cpus, first)) && Contexts(Init(threads, cpus, first))
  {}

  lemma WokenKnown(s: State, i: nat)
    requires Inv(s) && i < |s.list|
    ensures s.list[i].lt in s.pc
  {
    assert InList(s.list, s.list[i].lt) && Known(s, s.list[i].lt);
  }

  lemma SameThreadsWake(s: State, step: Step)
    requires Inv(s) && Enabled(s, step) && Wakes(s, step)
    ensures Apply(s, step).pc.Keys == s.pc.Keys
  {
    WokenKnown(s, if step.TickNext? then s.cpu[step.c].i else s.pc[step.x].ctl.i);
  }

  lemma SameThreadsQueue(s: State, step: Step)
    requires Inv(s) && Enabled(s, step) && (step.ResumeReady? || step.ResumeReturned? || step.HostDone?)
    ensures Apply(s, step).pc.Keys == s.pc.Keys
  {
    var y := if step.HostDone? then step.y else if step.ResumeReady? then s.sched[0] else s.retq[0];
    assert Known(s, y);
  }

  lemma SameThreads(s: State, step: Step)
    requires Inv(s) && Enabled(s, step)
    ensures Apply(s, step).pc.Keys == s.pc.Keys
  {
    if Wakes(s, step) {
      SameThreadsWake(s, step);
    } else if step.ResumeReady? || step.ResumeReturned? || step.HostDone? {
      SameThreadsQueue(s, step);
    }
  }

  lemma {:induction false} RunInv(threads: set<Lt>, cpus: set<Cpu>, first: Lt, run: seq<State>, k: nat)
    requires IsRun(threads, cpus, first, run) && k < |run|
    ensures Inv(run[k]) && Contexts(run[k]) && run[k].pc.Keys == threads
  {
    if k == 0 {
      InitInv(threads, cpus, first);
    } else {
      RunInv(threads, cpus, first, run, k - 1);
      assert Linked(run, k - 1);
      var step :| Enabled(run[k - 1], step) && run[k] == Apply(run[k - 1], step);
      StepInv(run[k - 1], step);
      SameThreads(run[k - 1], step);
      StepContexts(run[k - 1], step);
    }
  }

  // ---- results --------------------------------------------------------------------------------------------

  ghost predicate OnACpu(s: State, x: Lt) { exists c :: c in s.cpu && s.cpu[c] == Runs(x) }

  ghost predicate Asleep(s: State, x: Lt) { InList(s.list, x) && !OnACpu(s, x) }

  ghost function One(b: bool): nat { if b then 1 else 0 }

  ghost function Places(s: State, x: Lt): nat {
    One(OnACpu(s, x)) + One(x in s.sched) + One(Asleep(s, x)) + One(x in s.inflight) + One(x in s.retq)
  }

  lemma RunsIff(s: State, x: Lt)
    requires Inv(s) && x in s.pc
    ensures OnACpu(s, x) <==> s.pc[x].OnCpu?
  {
    assert LtOk(s, x);
    if c :| c in s.cpu && s.cpu[c] == Runs(x) { assert CpuOk(s, c); }
  }

  /** An lthread that has been started and has not exited is in exactly one of these places: on a CPU, in the
      scheduler queue, asleep on the futex list, in a host call, or in the return queue. It is in none
      of them twice. */
  lemma OnePlace(threads: set<Lt>, cpus: set<Cpu>, first: Lt, run: seq<State>, k: nat, x: Lt)
    requires IsRun(threads, cpus, first, run) && k < |run| && x in threads
    ensures x in run[k].pc
    ensures Places(run[k], x) == (if run[k].pc[x].New? || run[k].pc[x].Exited? then 0 else 1)
    ensures NoDup(run[k].sched) && NoDup(run[k].retq) && Distinct(run[k].list)
    ensures forall c, c' :: c in run[k].cpu && c' in run[k].cpu && run[k].cpu[c] == Runs(x) == run[k].cpu[c'] ==>
              c == c'
  {
    var s := run[k];
    RunInv(threads, cpus, first, run, k);
    assert LtOk(s, x);
    RunsIff(s, x);
    forall c, c' | c in s.cpu && c' in s.cpu && s.cpu[c] == Runs(x) == s.cpu[c'] ensures c == c' {
      assert CpuOk(s, c) && CpuOk(s, c');
    }
  }

  /** No lthread is ever in a queue while it is on a CPU: what a scheduler resumes is off every CPU, and
      whatever a step puts into the scheduler queue, the return queue or the hands of the host has left
      its CPU by then. */
  lemma QueuedOffCpu(threads: set<Lt>, cpus: set<Cpu>, first: Lt, run: seq<State>, k: nat, x: Lt)
    requires IsRun(threads, cpus, first, run) && k < |run|
    requires x in run[k].sched || x in run[k].retq || x in run[k].inflight
    ensures x in threads && !OnACpu(run[k], x)
  {
    RunInv(threads, cpus, first, run, k);
    assert Known(run[k], x);
    OnePlace(threads, cpus, first, run, k, x);
  }

  /** A scheduler queue with room for every lthread never refuses one. */
  lemma SchedulerQueueFits(threads: set<Lt>, cpus: set<Cpu>, first: Lt, run: seq<State>, k: nat)
    requires IsRun(threads, cpus, first, run) && k < |run|
    ensures |run[k].sched| <= |threads|
  {
    RunInv(threads, cpus, first, run, k);
    var q := run[k].sched;
    forall a | 0 <= a < |q| ensures q[a] in threads { assert q[a] in q && Known(run[k], q[a]); }
    FitsIn(q, threads);
  }

  ghost predicate Releases(s: State, step: Step)
    requires Enabled(s, step)
  {
    || step.Release?
    || (step.RunCallback? && s.pc[s.cpu[step.c].x].ctl.cb.UnlockFutex?)
    || (step.TickNext? && s.cpu[step.c].i >= |s.list|)
  }

  ghost function Actor(s: State, step: Step): Holder
    requires Enabled(s, step) && Releases(s, step)
  {
    if step.Release? then Thread(step.x) else if step.RunCallback? then Thread(s.cpu[step.c].x) else Tick(step.c)
  }

  /** The futex lock is released only by whoever holds it, and an lthread that runs application code or
      is off the CPU does not hold it. So each path through the system call, the sleeping ones
      included, and each tick releases the lock exactly once. */
  lemma LockDiscipline(threads: set<Lt>, cpus: set<Cpu>, first: Lt, run: seq<State>, k: nat)
    requires IsRun(threads, cpus, first, run) && k < |run|
    ensures forall step :: Enabled(run[k], step) && Releases(run[k], step) ==> run[k].lock == Actor(run[k], step)
    ensures forall x :: run[k].lock == Thread(x) <==> x in run[k].pc && Holds(run[k].pc[x])
  {
    var s := run[k];
    RunInv(threads, cpus, first, run, k);
    forall step | Enabled(s, step) && Releases(s, step) ensures s.lock == Actor(s, step) {
      if step.Release? {
        assert LtOk(s, step.x);
      } else {
        assert CpuOk(s, step.c);
        if step.RunCallback? { assert LtOk(s, s.cpu[step.c].x); }
      }
    }
    forall x ensures s.lock == Thread(x) <==> x in s.pc && Holds(s.pc[x]) {
      assert Known(s, x);
      if x in s.pc { assert LtOk(s, x); }
    }
  }

  /** What a wait command returns, in every run. Its result goes to the branch that unlocks if and only if the lock is
      still its own, and that is when it never slept. A sleeper returns a time-out if and only if the last to
      take it off the list was a tick. */
  lemma WaitResult(threads: set<Lt>, cpus: set<Cpu>, first: Lt, run: seq<State>, k: nat, x: Lt)
    requires IsRun(threads, cpus, first, run) && k < |run| && IsRunning(run[k], x) && run[k].pc[x].ctl.Returning?
    ensures var rc := run[k].pc[x].ctl.rc;
            && (!Unlocked(rc) <==> run[k].lock == Thread(x))
            && (!Unlocked(rc) <==> rc == -EAGAIN)
            && (Unlocked(rc) ==> !Waker(run[k], x).Nobody? && (rc == -ETIMEDOUT <==> Waker(run[k], x).Tick?))
  {
    RunInv(threads, cpus, first, run, k);
    assert LtOk(run[k], x) && ContextOk(run[k], x);
  }

  // A step took x off the list.
  ghost predicate TakenOff(run: seq<State>, j: int, x: Lt)
    requires 0 <= j < |run| - 1
  {
    InList(run[j].list, x) && !InList(run[j + 1].list, x)
  }

  ghost function HolderStep(s: State): Step
    requires !s.lock.Nobody? && (s.lock.Thread? ==> IsRunning(s, s.lock.x))
  {
    match s.lock
    case Tick(c) => TickNext(c)
    case Thread(x) =>
      match s.pc[x].ctl
      case Wait(_, _, _, _) => ReadWord(x)
      case Inserted => SleepYield(x)
      case Returning(_) => TestResult(x)
      case Wake(_, _, _, _, _, _) => WakeNext(x)
      case Compare(_, _, _, _, _) => CompareWord(x)
      case Requeue(_, _, _, _, _, _) => RequeueNext(x)
      case Saved(_) => RunCallback(s.pc[x].c)
      case _ => Release(x)
  }

  /** Whoever holds the futex lock can take its next step without waiting for anybody. */
  lemma HolderMoves(threads: set<Lt>, cpus: set<Cpu>, first: Lt, run: seq<State>, k: nat)
    requires IsRun(threads, cpus, first, run) && k < |run| && !run[k].lock.Nobody?
    ensures run[k].lock.Thread? ==> IsRunning(run[k], run[k].lock.x)
    ensures Enabled(run[k], HolderStep(run[k]))
  {
    var s := run[k];
    RunInv(threads, cpus, first, run, k);
    if s.lock.Thread? { assert Known(s, s.lock.x) && LtOk(s, s.lock.x); } else { assert CpuOk(s, s.lock.c); }
  }

  ghost predicate Joins(s: State, step: Step) {
    step.ReadWord? && IsRunning(s, step.x) && s.pc[step.x].ctl.Wait? &&
    Word(s, s.pc[step.x].ctl.addr) == s.pc[step.x].ctl.val
  }

  ghost function NewEntry(s: State, x: Lt): Entry
    requires Joins(s, ReadWord(x))
  {
    var w := s.pc[x].ctl;
    Entry(x, Key(w.addr), w.bits, w.deadline, w.addr, w.val, false)
  }

  // All that can happen to the list.
  ghost predicate ListStep(s: State, step: Step, l: seq<Entry>) {
    || l == s.list
    || (exists i :: 0 <= i < |s.list| && l == Without(s.list, i))
    || (exists i, key2 :: 0 <= i < |s.list| && l == Rekeyed(s.list, i, key2))
    || (Joins(s, step) && l == [NewEntry(s, step.x)] + s.list)
  }

  ghost function Rekeyed(l: seq<Entry>, i: nat, key2: nat): seq<Entry>
    requires i < |l|
  {
    l[i := l[i].(key := key2, requeued := true)]
  }

  lemma ListEffect(s: State, step: Step)
    requires Enabled(s, step)
    ensures ListStep(s, step, Apply(s, step).list)
  {
    var l := Apply(s, step).list;
    if Wakes(s, step) {
      var i := if step.TickNext? then s.cpu[step.c].i else s.pc[step.x].ctl.i;
      assert l == Without(s.list, i);
    } else if step.RequeueNext? && l != s.list {
      assert l == Rekeyed(s.list, s.pc[step.x].ctl.i, s.pc[step.x].ctl.key2);
    }
  }

  lemma ListStepKeeps(s: State, step: Step, l: seq<Entry>, x: Lt)
    requires Distinct(s.list) && ListStep(s, step, l) && !InList(s.list, x) && InList(l, x)
    ensures Joins(s, step) && step.x == x
  {
    if i :| 0 <= i < |s.list| && l == Without(s.list, i) {
      InListWithout(s.list, i, x);
    } else if i, key2 :| 0 <= i < |s.list| && l == Rekeyed(s.list, i, key2) {
      InListRekey(s.list, i, l[i], x);
    } else {
      InListCons(l[0], s.list, x);
    }
  }

  /** An lthread gets onto the list only by the step in which it reads the futex word, holding the lock, and
      finds the value it expects. */
  lemma JoinsOnlyIfEqual(s: State, step: Step, x: Lt)
    requires Inv(s) && Enabled(s, step) && !InList(s.list, x) && InList(Apply(s, step).list, x)
    ensures step == ReadWord(x) && s.lock == Thread(x) && s.pc[x].ctl.Wait?
    ensures Word(s, s.pc[x].ctl.addr) == s.pc[x].ctl.val
  {
    ListEffect(s, step);
    ListStepKeeps(s, step, Apply(s, step).list, x);
    assert LtOk(s, x);
  }

  lemma WakerStep(s: State, step: Step, x: Lt)
    requires Inv(s) && Enabled(s, step) && Wakes(s, step)
    ensures var s' := Apply(s, step);
            if InList(s.list, x) && !InList(s'.list, x) then Waker(s', x) == s.lock else Waker(s', x) == Waker(s, x)
  {
    var i := if step.TickNext? then s.cpu[step.c].i else s.pc[step.x].ctl.i;
    assert Apply(s, step).list == Without(s.list, i);
    InListWithout(s.list, i, x);
    assert InList(s.list, s.list[i].lt);
  }

  lemma OtherStep(s: State, step: Step, x: Lt)
    requires Enabled(s, step) && !Wakes(s, step)
    ensures InList(s.list, x) ==> InList(Apply(s, step).list, x)
    ensures Waker(Apply(s, step), x) == Waker(s, x)
  {
    var l := Apply(s, step).list;
    if step.RequeueNext? && l != s.list {
      InListRekey(s.list, s.pc[step.x].ctl.i, l[s.pc[step.x].ctl.i], x);
    } else if Joins(s, step) {
      InListCons(l[0], s.list, x);
    }
  }

  lemma NextWaker(threads: set<Lt>, cpus: set<Cpu>, first: Lt, run: seq<State>, k: nat, x: Lt)
    requires IsRun(threads, cpus, first, run) && k + 1 < |run|
    ensures Waker(run[k + 1], x) == if TakenOff(run, k, x) then run[k].lock else Waker(run[k], x)
  {
    RunInv(threads, cpus, first, run, k);
    assert Linked(run, k);
    var step :| Enabled(run[k], step) && run[k + 1] == Apply(run[k], step);
    if Wakes(run[k], step) { WakerStep(run[k], step, x); } else { OtherStep(run[k], step, x); }
  }

  /** The waker on record is the one who held the lock at the last step that took the lthread off the list. */
  lemma {:induction false} WhoWoke(threads: set<Lt>, cpus: set<Cpu>, first: Lt, run: seq<State>, k: nat, x: Lt)
    returns (j: nat)
    requires IsRun(threads, cpus, first, run) && k < |run| && !Waker(run[k], x).Nobody?
    ensures j < k && TakenOff(run, j, x) && run[j].lock == Waker(run[k], x)
    ensures forall i :: j < i < k ==> !TakenOff(run, i, x)
  {
    NextWaker(threads, cpus, first, run, k - 1, x);
    if TakenOff(run, k - 1, x) {
      j := k - 1;
    } else {
      j := WhoWoke(threads, cpus, first, run, k - 1, x);
    }
  }

  /** A wait command that has slept returns -ETIMEDOUT if and only if the last step that took it off the list
      was one of a tick, and otherwise 0. */
  lemma TimedOut(threads: set<Lt>, cpus: set<Cpu>, first: Lt, run: seq<State>, k: nat, x: Lt) returns (j: nat)
    requires IsRun(threads, cpus, first, run) && k < |run| && IsRunning(run[k], x) && run[k].pc[x].ctl.Returning?
    requires run[k].pc[x].ctl.rc != -EAGAIN
    ensures j < k && TakenOff(run, j, x) && forall i :: j < i < k ==> !TakenOff(run, i, x)
    ensures run[k].pc[x].ctl.rc == if run[j].lock.Tick? then -ETIMEDOUT else 0
  {
    WaitResult(threads, cpus, first, run, k, x);
    j := WhoWoke(threads, cpus, first, run, k, x);
  }

  lemma {:induction false} NoMatchCount(l: seq<Entry>, key: nat, bits: bv32)
    requires NoMatch(l, |l|, key, bits)
    ensures CountMatching(l, key, bits) == 0
  {
    if l != [] { NoMatchCount(l[1..], key, bits); }
  }

  lemma {:induction false} CountZero(l: seq<Entry>, key: nat, bits: bv32)
    requires CountMatching(l, key, bits) == 0
    ensures NoMatch(l, |l|, key, bits)
  {
    if l != [] { CountZero(l[1..], key, bits); }
  }

  ghost predicate WakeDone(s: State, x: Lt) {
    IsRunning(s, x) && s.pc[x].ctl.Wake? && s.pc[x].ctl.i >= |s.list|
  }

  /** A wake has woken as many of the m matching sleepers as it found and was asked for, the
      smaller number. When it was asked for at least m, no matching entry remains. */
  lemma WakeCount(threads: set<Lt>, cpus: set<Cpu>, first: Lt, run: seq<State>, k: nat, x: Lt)
    requires IsRun(threads, cpus, first, run) && k < |run| && WakeDone(run[k], x)
    ensures var Wake(key, num, bits, _, w, m) := run[k].pc[x].ctl;
            && w == (if num < m then num else m)
            && CountMatching(run[k].list, key, bits) == m - w
            && (num >= m ==> NoMatch(run[k].list, |run[k].list|, key, bits))
  {
    var s := run[k];
    RunInv(threads, cpus, first, run, k);
    assert LtOk(s, x);
    var Wake(key, num, bits, i, w, m) := s.pc[x].ctl;
    assert WorkOk(s, s.pc[x].ctl);
    if w < num { NoMatchCount(s.list, key, bits); }
    if num >= m { CountZero(s.list, key, bits); }
  }
}
