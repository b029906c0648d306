/** The asynchronous host-call protocol between enclave threads and host threads
    (src/host/sgx_hostcall_interface.c, src/main/sgxlkl_run.c, src/sched/lthread.c).

    Every slot belongs to one caller at a time. A caller writes its request into the slot and then takes
    one of three ways: it leaves the CPU and its yield callback queues the slot, it sets `status` and
    busy-waits for a host thread, or it sets `status` and leaves the enclave. The system call number and
    the return value share one word of the slot. The two queues are bounded first-in first-out queues,
    as MpmcQueue shows. Requests carry a number of their own (`next`), `results` records what the host
    computed for each, and `place` where each slot is; these three are history. */
module HostCall {
  import opened Basics

  type Host = nat

  datatype Word = Number(req: nat) | Value(v: int)
  datatype Slot = Slot(word: Word, status: int)

  datatype Caller =
    | Idle
    | Filled(req: nat)          // request written
    | Saved(req: nat)           // off the CPU, the yield callback is about to queue the slot
    | Waiting(req: nat)         // queued, to be resumed through the return queue
    | Marked(req: nat)          // status set, on the CPU
    | Spinning(req: nat)        // queued, waiting for status 2
    | Outside(req: nat)         // has left the enclave; its own thread serves the call
    | OutsideRun(req: nat)      // the request has been read there
    | Resumed(req: nat)         // allowed to read the return value
    | Finished(req: nat, v: int)

  datatype HostPc =
    | Free
    | Took(i: nat)              // slot i dequeued
    | Running(i: nat, req: nat) // request read from the slot
    | Wrote(i: nat)             // return value written
    | Publishing(i: nat)        // saw status 1, about to store 2
    | Returning(i: nat)         // saw another status, about to queue the slot for return

  datatype Place = Home | InSubmit | InReturn | With(h: Host)

  datatype State = State(slots: seq<Slot>, caller: seq<Caller>, host: map<Host, HostPc>,
                         sq: seq<nat>, rq: seq<nat>, cap: nat,
                         next: nat, results: map<nat, int>, place: seq<Place>)

  datatype Step =
    | Fill(i: nat)
    | SwitchOut(i: nat)
    | SubmitAsync(i: nat)
    | SetStatus(i: nat)
    | SubmitSync(i: nat)
    | LeaveEnclave(i: nat)
    | ExitRead(i: nat)
    | ExitWrite(i: nat, v: int)
    | SpinExit(i: nat)
    | Resume                     // the scheduler dequeues the return queue
    | ReadReturn(i: nat)
    | Finish(i: nat)
    | HTake(h: Host)
    | HRead(h: Host)
    | HWrite(h: Host, v: int)
    | HCheck(h: Host)
    | HPublish(h: Host)
    | HReturn(h: Host)

  ghost predicate Shape(s: State) { |s.slots| == |s.caller| == |s.place| }

  ghost predicate IsCaller(s: State, i: nat) { Shape(s) && i < |s.caller| }

  ghost predicate HostHas(s: State, h: Host) { Shape(s) && h in s.host && !s.host[h].Free? && s.host[h].i < |s.slots| }

  ghost predicate Enabled(s: State, step: Step) {
    match step
    case Fill(i) => IsCaller(s, i) && s.caller[i].Idle?
    case SwitchOut(i) => IsCaller(s, i) && s.caller[i].Filled?
    case SubmitAsync(i) => IsCaller(s, i) && s.caller[i].Saved? && |s.sq| < s.cap
    case SetStatus(i) => IsCaller(s, i) && s.caller[i].Filled?
    case SubmitSync(i) => IsCaller(s, i) && s.caller[i].Marked? && |s.sq| < s.cap
    case LeaveEnclave(i) => IsCaller(s, i) && s.caller[i].Marked?
    case ExitRead(i) => IsCaller(s, i) && s.caller[i].Outside? && s.slots[i].word.Number?
    case ExitWrite(i, _) => IsCaller(s, i) && s.caller[i].OutsideRun?
    case SpinExit(i) => IsCaller(s, i) && s.caller[i].Spinning? && s.slots[i].status == 2
    case Resume => s.rq != [] && IsCaller(s, s.rq[0]) && s.caller[s.rq[0]].Waiting?
    case ReadReturn(i) => IsCaller(s, i) && s.caller[i].Resumed? && s.slots[i].word.Value?
    case Finish(i) => IsCaller(s, i) && s.caller[i].Finished?
    case HTake(h) => h in s.host && s.host[h].Free? && s.sq != [] && IsCaller(s, s.sq[0])
    case HRead(h) => HostHas(s, h) && s.host[h].Took? && s.slots[s.host[h].i].word.Number?
    case HWrite(h, _) => HostHas(s, h) && s.host[h].Running?
    case HCheck(h) => HostHas(s, h) && s.host[h].Wrote?
    case HPublish(h) => HostHas(s, h) && s.host[h].Publishing?
    case HReturn(h) => HostHas(s, h) && s.host[h].Returning? && |s.rq| < s.cap
  }

  ghost function Call(s: State, i: nat, c: Caller): State
    requires IsCaller(s, i)
  {
    s.(caller := s.caller[i := c])
  }

  ghost function Put(s: State, i: nat, slot: Slot): State
    requires IsCaller(s, i)
  {
    s.(slots := s.slots[i := slot])
  }

  ghost function At(s: State, h: Host, pc: HostPc): State { s.(host := s.host[h := pc]) }

  ghost function Move(s: State, i: nat, p: Place): State
    requires IsCaller(s, i)
  {
    s.(place := s.place[i := p])
  }

  ghost function Apply(s: State, step: Step): State
    requires Enabled(s, step)
  {
    match step
    case Fill(i) => Put(Call(s, i, Filled(s.next)), i, s.slots[i].(word := Number(s.next))).(next := s.next + 1)
    case SwitchOut(i) => Call(s, i, Saved(s.caller[i].req))
    case SubmitAsync(i) => Move(Call(s, i, Waiting(s.caller[i].req)), i, InSubmit).(sq := s.sq + [i])
    case SetStatus(i) => Put(Call(s, i, Marked(s.caller[i].req)), i, s.slots[i].(status := 1))
    case SubmitSync(i) => Move(Call(s, i, Spinning(s.caller[i].req)), i, InSubmit).(sq := s.sq + [i])
    case LeaveEnclave(i) => Call(s, i, Outside(s.caller[i].req))
    case ExitRead(i) => Call(s, i, OutsideRun(s.slots[i].word.req))
    case ExitWrite(i, v) =>
      var req := s.caller[i].req;
      Put(Call(s, i, Resumed(req)), i, s.slots[i].(word := Value(v))).(results := s.results[req := v])
    case SpinExit(i) => Call(s, i, Resumed(s.caller[i].req))
    case Resume => Move(Call(s, s.rq[0], Resumed(s.caller[s.rq[0]].req)), s.rq[0], Home).(rq := s.rq[1..])
    case ReadReturn(i) => Call(s, i, Finished(s.caller[i].req, s.slots[i].word.v))
    case Finish(i) => Put(Call(s, i, Idle), i, s.slots[i].(status := 0))
    case HTake(h) => Move(At(s, h, Took(s.sq[0])), s.sq[0], With(h)).(sq := s.sq[1..])
    case HRead(h) => At(s, h, Running(s.host[h].i, s.slots[s.host[h].i].word.req))
    case HWrite(h, v) =>
      var i := s.host[h].i;
      At(Put(s, i, s.slots[i].(word := Value(v))), h, Wrote(i)).(results := s.results[s.host[h].req := v])
    case HCheck(h) =>
      var i := s.host[h].i;
      At(s, h, if s.slots[i].status == 1 then Publishing(i) else Returning(i))
    case HPublish(h) =>
      var i := s.host[h].i;
      Move(At(Put(s, i, s.slots[i].(status := 2)), h, Free), i, Home)
    case HReturn(h) => Move(At(s, h, Free), s.host[h].i, InReturn).(rq := s.rq + [s.host[h].i])
  }

  ghost function Init(n: nat, hosts: set<Host>, cap: nat): State {
    State(seq(n, i => Slot(Value(0), 0)), seq(n, i => Idle), map h | h in hosts :: Free, [], [], cap,
          0, map[], seq(n, i => Home))
  }

  ghost predicate Follows(s: State, s': State) { exists step :: Enabled(s, step) && s' == Apply(s, step) }

  ghost predicate Linked(run: seq<State>, k: int)
    requires 0 <= k < |run| - 1
  {
    Follows(run[k], run[k + 1])
  }

  ghost predicate IsRun(n: nat, hosts: set<Host>, cap: nat, run: seq<State>) {
    && run != [] && run[0] == Init(n, hosts, cap)
    && forall k :: 0 <= k < |run| - 1 ==> Linked(run, k)
  }

  // ---- invariant ------------------------------------------------------------------------------------

  ghost predicate Executed(s: State, i: nat)
    requires IsCaller(s, i) && !s.caller[i].Idle?
  {
    var req := s.caller[i].req;
    req in s.results && s.slots[i].word == Value(s.results[req])
  }

  ghost predicate Pristine(s: State, i: nat)
    requires IsCaller(s, i) && !s.caller[i].Idle?
  {
    var req := s.caller[i].req;
    req !in s.results && s.slots[i].word == Number(req)
  }

  // The slot is with its caller, who may use it; the host has finished with it or not seen it.
  ghost predicate HomeOk(s: State, i: nat)
    requires IsCaller(s, i)
  {
    var status := s.slots[i].status;
    match s.caller[i]
    case Idle => status == 0
    case Filled(_) => status == 0 && Pristine(s, i)
    case Saved(_) => status == 0 && Pristine(s, i)
    case Marked(_) => status == 1 && Pristine(s, i)
    case Outside(_) => status == 1 && Pristine(s, i)
    case OutsideRun(_) => status == 1 && Pristine(s, i)
    case Spinning(_) => status == 2 && Executed(s, i)
    case Resumed(_) => Executed(s, i)
    case Finished(req, v) => req in s.results && v == s.results[req]
    case Waiting(_) => false
  }

  // Waiting for the host: for the return queue with status 0, or for status 2 with status 1 so far.
  ghost predicate Expecting(s: State, i: nat)
    requires IsCaller(s, i)
  {
    (s.caller[i].Waiting? && s.slots[i].status == 0) || (s.caller[i].Spinning? && s.slots[i].status == 1)
  }

  ghost predicate HeldOk(s: State, i: nat, pc: HostPc)
    requires IsCaller(s, i)
  {
    && Expecting(s, i) && !pc.Free? && pc.i == i
    && match pc
       case Free => false
       case Took(_) => Pristine(s, i)
       case Running(_, r) => r == s.caller[i].req && Pristine(s, i)
       case Wrote(_) => Executed(s, i)
       case Publishing(_) => Executed(s, i) && s.caller[i].Spinning?
       case Returning(_) => Executed(s, i) && s.caller[i].Waiting?
  }

  ghost predicate SlotOk(s: State, i: nat)
    requires IsCaller(s, i)
  {
    && (s.caller[i].Idle? || s.caller[i].req < s.next)
    && (i in s.sq <==> s.place[i] == InSubmit)
    && (i in s.rq <==> s.place[i] == InReturn)
    && match s.place[i]
       case Home => HomeOk(s, i)
       case InSubmit => Expecting(s, i) && Pristine(s, i)
       case InReturn => Expecting(s, i) && s.caller[i].Waiting? && Executed(s, i)
       case With(h) => h in s.host && HeldOk(s, i, s.host[h])
  }

  ghost predicate HostOk(s: State, h: Host)
    requires h in s.host
  {
    s.host[h].Free? || (IsCaller(s, s.host[h].i) && s.place[s.host[h].i] == With(h))
  }

  ghost predicate OwnReq(s: State, i: nat, j: nat)
    requires IsCaller(s, i) && IsCaller(s, j)
  {
    i == j || s.caller[i].Idle? || s.caller[j].Idle? || s.caller[i].req != s.caller[j].req
  }

  ghost predicate InRange(s: State, i: nat) { i in s.sq || i in s.rq ==> IsCaller(s, i) }

  ghost predicate Inv(s: State) {
    && Shape(s) && NoDup(s.sq) && NoDup(s.rq) && (forall i :: InRange(s, i))
    && (forall i :: 0 <= i < |s.caller| ==> SlotOk(s, i))
    && (forall h :: h in s.host ==> HostOk(s, h))
    && (forall i, j :: IsCaller(s, i) && IsCaller(s, j) ==> OwnReq(s, i, j))
    && (forall req :: req in s.results ==> req < s.next)
  }

  // ---- each step touches one slot ---------------------------------------------------------------------

  ghost predicate SameSlot(s: State, s': State, j: nat)
    requires IsCaller(s, j) && IsCaller(s', j)
  {
    && s'.slots[j] == s.slots[j] && s'.caller[j] == s.caller[j] && s'.place[j] == s.place[j]
    && (j in s'.sq <==> j in s.sq) && (j in s'.rq <==> j in s.rq)
  }

  ghost predicate SameHost(s: State, s': State, h: Host, i: nat) {
    && (h in s'.host <==> h in s.host)
    && (h in s.host && s'.host[h] != s.host[h] ==>
         && (s.host[h].Free? || s.host[h].i == i)
         && (s'.host[h].Free? || s'.host[h].i == i))
  }

  ghost predicate SameResult(s: State, s': State, req: nat) {
    (req in s'.results <==> req in s.results) && (req in s.results ==> s'.results[req] == s.results[req])
  }

  // s' differs from s only in slot i and in host threads that hold it before or after, and the only
  // result that may be new is that of the request in slot i.
  ghost predicate Only(s: State, s': State, i: nat)
    requires Shape(s) && Shape(s')
  {
    && |s'.caller| == |s.caller| && i < |s.caller| && s.next <= s'.next
    && (forall j :: 0 <= j < |s.caller| && j != i ==> SameSlot(s, s', j))
    && (forall h :: SameHost(s, s', h, i))
    && (forall req :: SameResult(s, s', req) || (!s.caller[i].Idle? && req == s.caller[i].req))
    && (s'.caller[i].Idle? || s'.caller[i].req == s.next < s'.next ||
        (!s.caller[i].Idle? && s'.caller[i].req == s.caller[i].req))
  }

  lemma OtherSlot(s: State, s': State, i: nat, j: nat)
    requires Inv(s) && Shape(s') && Only(s, s', i) && j < |s.caller| && j != i
    ensures SlotOk(s', j)
  {
    assert SlotOk(s, j) && SameSlot(s, s', j) && OwnReq(s, i, j);
    if s.place[j].With? { assert SameHost(s, s', s.place[j].h, i); }
    if !s.caller[j].Idle? { assert SameResult(s, s', s.caller[j].req); }
  }

  lemma OneSlot(s: State, s': State, i: nat)
    requires Inv(s) && Shape(s') && Only(s, s', i)
    requires SlotOk(s', i) && NoDup(s'.sq) && NoDup(s'.rq)
    requires forall j :: InRange(s', j)
    requires forall h :: h in s'.host && !s'.host[h].Free? && s'.host[h].i == i ==> s'.place[i] == With(h)
    ensures Inv(s')
  {
    forall j | 0 <= j < |s'.caller| ensures SlotOk(s', j) {
      if j != i { OtherSlot(s, s', i, j); }
    }
    forall h | h in s'.host ensures HostOk(s', h) {
      assert SameHost(s, s', h, i) && HostOk(s, h);
      if !s'.host[h].Free? && s'.host[h].i != i { assert SameSlot(s, s', s'.host[h].i); }
    }
    forall j, k | IsCaller(s', j) && IsCaller(s', k) ensures OwnReq(s', j, k) {
      assert OwnReq(s, j, k);
      assert SlotOk(s, j) && SlotOk(s, k);
      if j != i { assert SameSlot(s, s', j); }
      if k != i { assert SameSlot(s, s', k); }
    }
    forall req | req in s'.results ensures req < s'.next {
      assert SlotOk(s, i);
      assert SameResult(s, s', req) || req == s.caller[i].req;
    }
  }

  // ---- every step keeps the invariant -----------------------------------------------------------------

  // Steps of the caller that leave the queues, the host threads and the slot's place alone.
  ghost predicate CallerStep(step: Step) {
    step.Fill? || step.SwitchOut? || step.SetStatus? || step.LeaveEnclave? || step.ExitRead? ||
    step.ExitWrite? || step.SpinExit? || step.ReadReturn? || step.Finish?
  }

  lemma CallerInv(s: State, step: Step)
    requires Inv(s) && Enabled(s, step) && CallerStep(step)
    ensures Inv(Apply(s, step))
  {
    var s', i := Apply(s, step), step.i;
    assert SlotOk(s, i);
    forall j | 0 <= j < |s.caller| && j != i ensures SameSlot(s, s', j) {}
    forall j ensures InRange(s', j) { assert InRange(s, j); }
    forall h | h in s.host ensures s.host[h].Free? || s.host[h].i != i { assert HostOk(s, h); }
    OneSlot(s, s', i);
  }

  lemma SubmitInv(s: State, step: Step)
    requires Inv(s) && Enabled(s, step) && (step.SubmitAsync? || step.SubmitSync?)
    ensures Inv(Apply(s, step))
  {
    var s', i := Apply(s, step), step.i;
    assert SlotOk(s, i);
    forall j ensures InRange(s', j) { assert InRange(s, j); }
    forall h | h in s.host ensures s.host[h].Free? || s.host[h].i != i { assert HostOk(s, h); }
    OneSlot(s, s', i);
  }

  lemma ResumeInv(s: State)
    requires Inv(s) && Enabled(s, Resume)
    ensures Inv(Apply(s, Resume))
  {
    var s', i := Apply(s, Resume), s.rq[0];
    assert SlotOk(s, i);
    forall j ensures InRange(s', j) && (j in s'.rq <==> j in s.rq && j != i) {
      assert InRange(s, j);
      Tail(s.rq, j);
    }
    forall h | h in s.host ensures s.host[h].Free? || s.host[h].i != i { assert HostOk(s, h); }
    OneSlot(s, s', i);
  }

  lemma TakeInv(s: State, h: Host)
    requires Inv(s) && Enabled(s, HTake(h))
    ensures Inv(Apply(s, HTake(h)))
  {
    var s', i := Apply(s, HTake(h)), s.sq[0];
    assert SlotOk(s, i);
    forall j ensures InRange(s', j) && (j in s'.sq <==> j in s.sq && j != i) {
      assert InRange(s, j);
      Tail(s.sq, j);
    }
    forall h' | h' in s.host ensures s.host[h'].Free? || s.host[h'].i != i { assert HostOk(s, h'); }
    OneSlot(s, s', i);
  }

  // Steps of a host thread that leave the queues alone.
  lemma HostInv(s: State, step: Step)
    requires Inv(s) && Enabled(s, step)
    requires step.HRead? || step.HWrite? || step.HCheck? || step.HPublish?
    ensures Inv(Apply(s, step))
  {
    var s', i := Apply(s, step), s.host[step.h].i;
    assert HostOk(s, step.h);
    assert SlotOk(s, i);
    forall j ensures InRange(s', j) { assert InRange(s, j); }
    forall h' | h' in s.host && h' != step.h ensures s.host[h'].Free? || s.host[h'].i != i { assert HostOk(s, h'); }
    OneSlot(s, s', i);
  }

  lemma ReturnInv(s: State, h: Host)
    requires Inv(s) && Enabled(s, HReturn(h))
    ensures Inv(Apply(s, HReturn(h)))
  {
    var s', i := Apply(s, HReturn(h)), s.host[h].i;
    assert HostOk(s, h);
    assert SlotOk(s, i);
    forall j ensures InRange(s', j) { assert InRange(s, j); }
    forall h' | h' in s.host && h' != h ensures s.host[h'].Free? || s.host[h'].i != i { assert HostOk(s, h'); }
    OneSlot(s, s', i);
  }

  ghost predicate SameSizes(s: State, s': State) {
    |s'.caller| == |s.caller| && s'.cap == s.cap && s'.host.Keys == s.host.Keys
  }

  lemma StepInv(s: State, step: Step)
    requires Inv(s) && Enabled(s, step)
    ensures Inv(Apply(s, step)) && SameSizes(s, Apply(s, step))
  {
    if CallerStep(step) {
      CallerInv(s, step);
    } else if step.SubmitAsync? || step.SubmitSync? {
      SubmitInv(s, step);
    } else if step.Resume? {
      ResumeInv(s);
    } else if step.HTake? {
      TakeInv(s, step.h);
    } else if step.HReturn? {
      ReturnInv(s, step.h);
    } else {
      HostInv(s, step);
    }
  }

  lemma InitInv(n: nat, hosts: set<Host>, cap: nat)
    ensures Inv(Init(n, hosts, cap))
  {}

  lemma {:induction false} RunInv(n: nat, hosts: set<Host>, cap: nat, run: seq<State>, k: nat)
    requires IsRun(n, hosts, cap, run) && k < |run|
    ensures Inv(run[k]) && |run[k].caller| == n && run[k].cap == cap && run[k].host.Keys == hosts
  {
    if k == 0 {
      InitInv(n, hosts, cap);
    } else {
      RunInv(n, hosts, cap, run, k - 1);
      assert Linked(run, k - 1);
      var step :| Enabled(run[k - 1], step) && run[k] == Apply(run[k - 1], step);
      StepInv(run[k - 1], step);
    }
  }

  // ---- results ----------------------------------------------------------------------------------------

  // The step carries out request req, and the system call returns v.
  ghost predicate Executes(s: State, step: Step, req: nat, v: int) {
    || (step.HWrite? && step.v == v && HostHas(s, step.h) && s.host[step.h].Running? && s.host[step.h].req == req)
    || (step.ExitWrite? && step.v == v && IsCaller(s, step.i) && s.caller[step.i].OutsideRun?
        && s.caller[step.i].req == req)
  }

  ghost predicate ExecutedAt(run: seq<State>, j: int, req: nat, v: int)
    requires 0 <= j < |run| - 1
  {
    exists step :: Enabled(run[j], step) && run[j + 1] == Apply(run[j], step) && Executes(run[j], step, req, v)
  }

  lemma FreshExecution(s: State, step: Step, req: nat, v: int)
    requires Inv(s) && Enabled(s, step) && Executes(s, step, req, v)
    ensures req !in s.results && req in Apply(s, step).results && Apply(s, step).results[req] == v
  {
    if step.HWrite? {
      assert HostOk(s, step.h);
      assert SlotOk(s, s.host[step.h].i);
    } else {
      assert SlotOk(s, step.i);
    }
  }

  lemma StepResults(s: State, step: Step, req: nat)
    requires Inv(s) && Enabled(s, step)
    ensures req in s.results ==> req in Apply(s, step).results && Apply(s, step).results[req] == s.results[req]
    ensures var results := Apply(s, step).results;
            req !in s.results && req in results ==> Executes(s, step, req, results[req])
  {
    if step.HWrite? {
      FreshExecution(s, step, s.host[step.h].req, step.v);
    } else if step.ExitWrite? {
      FreshExecution(s, step, s.caller[step.i].req, step.v);
    }
  }

  ghost predicate Kept(s: State, s': State, req: nat) {
    req in s.results ==> req in s'.results && s'.results[req] == s.results[req]
  }

  lemma NextResults(n: nat, hosts: set<Host>, cap: nat, run: seq<State>, k: nat, req: nat)
    requires IsRun(n, hosts, cap, run) && k + 1 < |run|
    ensures Kept(run[k], run[k + 1], req)
    ensures req !in run[k].results && req in run[k + 1].results ==> ExecutedAt(run, k, req, run[k + 1].results[req])
  {
    RunInv(n, hosts, cap, run, k);
    assert Linked(run, k);
    var step :| Enabled(run[k], step) && run[k + 1] == Apply(run[k], step);
    StepResults(run[k], step, req);
  }

  /** A result, once there, never changes. */
  lemma {:induction false} ResultsStable(n: nat, hosts: set<Host>, cap: nat, run: seq<State>, j: nat, k: nat, req: nat)
    requires IsRun(n, hosts, cap, run) && j <= k < |run| && req in run[j].results
    ensures req in run[k].results && run[k].results[req] == run[j].results[req]
    decreases k
  {
    if j < k {
      ResultsStable(n, hosts, cap, run, j, k - 1, req);
      NextResults(n, hosts, cap, run, k - 1, req);
    }
  }

  lemma {:induction false} WhenExecuted(n: nat, hosts: set<Host>, cap: nat, run: seq<State>, k: nat, req: nat)
    returns (j: nat)
    requires IsRun(n, hosts, cap, run) && k < |run| && req in run[k].results
    ensures j < k && ExecutedAt(run, j, req, run[k].results[req])
  {
    NextResults(n, hosts, cap, run, k - 1, req);
    if req in run[k - 1].results {
      j := WhenExecuted(n, hosts, cap, run, k - 1, req);
    } else {
      j := k - 1;
    }
  }

  // Before an execution there is no result of the request, and after it there is the value returned.
  lemma HasResult(n: nat, hosts: set<Host>, cap: nat, run: seq<State>, j: nat, req: nat, v: int)
    requires IsRun(n, hosts, cap, run) && j < |run| - 1 && ExecutedAt(run, j, req, v)
    ensures req !in run[j].results && req in run[j + 1].results && run[j + 1].results[req] == v
  {
    RunInv(n, hosts, cap, run, j);
    var step :| Enabled(run[j], step) && run[j + 1] == Apply(run[j], step) && Executes(run[j], step, req, v);
    FreshExecution(run[j], step, req, v);
  }

  lemma OneExecution(n: nat, hosts: set<Host>, cap: nat, run: seq<State>, j: nat, j': nat, req: nat, v: int, v': int)
    requires IsRun(n, hosts, cap, run) && j < |run| - 1 && j' < |run| - 1
    requires ExecutedAt(run, j, req, v) && ExecutedAt(run, j', req, v')
    ensures j == j' && v == v'
  {
    HasResult(n, hosts, cap, run, j, req, v);
    HasResult(n, hosts, cap, run, j', req, v');
    if j < j' {
      ResultsStable(n, hosts, cap, run, j + 1, j', req);
    } else if j' < j {
      ResultsStable(n, hosts, cap, run, j' + 1, j, req);
    }
  }

  ghost predicate Completed(s: State, i: nat) { IsCaller(s, i) && (s.caller[i].Resumed? || s.caller[i].Finished?) }

  ghost predicate HoldsResult(s: State, i: nat, v: int)
    requires Completed(s, i)
  {
    if s.caller[i].Resumed? then s.slots[i].word == Value(v) else s.caller[i].v == v
  }

  lemma CompletedResult(s: State, i: nat)
    requires Inv(s) && Completed(s, i)
    ensures s.caller[i].req in s.results && HoldsResult(s, i, s.results[s.caller[i].req])
  {
    assert SlotOk(s, i);
  }

  /** When a caller continues after its call, on whichever path, its request has been executed exactly
      once, and the value in the slot, or the value it has read, is what the system call returned there. */
  lemma ExactlyOnce(n: nat, hosts: set<Host>, cap: nat, run: seq<State>, k: nat, i: nat) returns (j: nat, v: int)
    requires IsRun(n, hosts, cap, run) && k < |run| && Completed(run[k], i)
    ensures j < k && ExecutedAt(run, j, run[k].caller[i].req, v) && HoldsResult(run[k], i, v)
    ensures forall j', v' :: 0 <= j' < |run| - 1 && ExecutedAt(run, j', run[k].caller[i].req, v') ==>
              j' == j && v' == v
  {
    RunInv(n, hosts, cap, run, k);
    CompletedResult(run[k], i);
    var req := run[k].caller[i].req;
    v := run[k].results[req];
    j := WhenExecuted(n, hosts, cap, run, k, req);
    forall j', v' | 0 <= j' < |run| - 1 && ExecutedAt(run, j', req, v') ensures j' == j && v' == v {
      OneExecution(n, hosts, cap, run, j, j', req, v, v');
    }
  }

  // The caller believes the slot to be its own.
  ghost predicate MayTouch(s: State, i: nat)
    requires IsCaller(s, i)
  {
    !s.caller[i].Waiting? && (s.caller[i].Spinning? ==> s.slots[i].status == 2)
  }

  /** While a caller may touch its slot, no host thread holds it and neither queue contains it. In
      particular the host never touches a slot after it has published its completion. */
  lemma HandsOff(n: nat, hosts: set<Host>, cap: nat, run: seq<State>, k: nat, i: nat)
    requires IsRun(n, hosts, cap, run) && k < |run| && i < n
    ensures IsCaller(run[k], i)
    ensures MayTouch(run[k], i) ==>
              && i !in run[k].sq && i !in run[k].rq
              && forall h :: h in hosts ==> HostFree(run[k], h, i)
    ensures i !in run[k].sq || i !in run[k].rq
  {
    RunInv(n, hosts, cap, run, k);
    assert SlotOk(run[k], i);
    forall h | h in hosts && MayTouch(run[k], i) ensures HostFree(run[k], h, i) { assert HostOk(run[k], h); }
  }

  ghost predicate HostFree(s: State, h: Host, i: nat) { h in s.host && (s.host[h].Free? || s.host[h].i != i) }

  ghost function Below(n: nat): (r: set<nat>)
    ensures |r| == n && forall x :: x in r <==> 0 <= x < n
  {
    if n == 0 then {} else Below(n - 1) + {n - 1}
  }

  lemma Room(s: State, q: seq<nat>, i: nat)
    requires Inv(s) && (q == s.sq || q == s.rq) && IsCaller(s, i) && i !in q
    ensures |q| < |s.caller|
  {
    forall a | 0 <= a < |q| ensures q[a] < |s.caller| && q[a] != i {
      assert q[a] in q;
      assert InRange(s, q[a]);
    }
    FitsIn(q, Below(|s.caller|) - {i});
  }

  /** With queues of at least as many cells as there are slots no enqueue ever meets a full queue: neither the
      submission by the yield callback or by the busy-waiting caller, nor the return by the host. */
  lemma NeverFull(n: nat, hosts: set<Host>, cap: nat, run: seq<State>, k: nat)
    requires IsRun(n, hosts, cap, run) && k < |run| && n <= cap
    ensures forall i: nat :: IsCaller(run[k], i) && run[k].caller[i].Saved? ==> Enabled(run[k], SubmitAsync(i))
    ensures forall i: nat :: IsCaller(run[k], i) && run[k].caller[i].Marked? ==> Enabled(run[k], SubmitSync(i))
    ensures forall h :: HostHas(run[k], h) && run[k].host[h].Returning? ==> Enabled(run[k], HReturn(h))
  {
    var s := run[k];
    RunInv(n, hosts, cap, run, k);
    forall i: nat | IsCaller(s, i) && (s.caller[i].Saved? || s.caller[i].Marked?) ensures |s.sq| < cap {
      assert SlotOk(s, i);
      Room(s, s.sq, i);
    }
    forall h | HostHas(s, h) && s.host[h].Returning? ensures |s.rq| < cap {
      assert HostOk(s, h);
      assert SlotOk(s, s.host[h].i);
      Room(s, s.rq, s.host[h].i);
    }
  }

  // ---- progress of one call ---------------------------------------------------------------------------

  ghost function IndexOf(q: seq<nat>, i: nat): nat
    requires i in q
  {
    if q[0] == i then 0 else 1 + IndexOf(q[1..], i)
  }

  lemma {:induction false} IndexAppend(q: seq<nat>, j: nat, i: nat)
    requires i in q
    ensures IndexOf(q + [j], i) == IndexOf(q, i)
  {
    if q[0] != i {
      IndexAppend(q[1..], j, i);
      assert (q + [j])[1..] == q[1..] + [j];
    }
  }

  // The steps a host thread has left before it is free again.
  function Left(pc: HostPc): nat {
    match pc case Free => 0 case Took(_) => 4 case Running(_, _) => 3 case Wrote(_) => 2 case _ => 1
  }

  /** How far a call is from its completion: in the submission queue by its place there and by what host thread g
      has left to do, then with a host thread by what that thread has left, then in the return queue. */
  datatype Rank = Rank(stage: nat, place: nat, left: nat)

  ghost predicate Closer(a: Rank, b: Rank) {
    || a.stage < b.stage
    || (a.stage == b.stage && (a.place < b.place || (a.place == b.place && a.left < b.left)))
  }

  ghost predicate Outstanding(s: State, i: nat) {
    IsCaller(s, i) && (s.caller[i].Waiting? || s.caller[i].Spinning?)
  }

  ghost function RankOf(s: State, i: nat, g: Host): Rank
    requires Inv(s) && Outstanding(s, i) && g in s.host
  {
    assert SlotOk(s, i);
    match s.place[i]
    case InSubmit => Rank(3, IndexOf(s.sq, i), Left(s.host[g]))
    case With(h) => Rank(2, 0, Left(s.host[h]))
    case InReturn => Rank(1, IndexOf(s.rq, i), 0)
    case Home => Rank(0, 0, 0)
  }

  // The call is complete in s', or nearer to it than in s.
  ghost predicate Nearer(s: State, s': State, i: nat, g: Host)
    requires Inv(s) && Inv(s') && Outstanding(s, i) && g in s.host && g in s'.host
  {
    !Outstanding(s', i) || Closer(RankOf(s', i, g), RankOf(s, i, g))
  }

  ghost predicate NotFarther(s: State, s': State, i: nat, g: Host)
    requires Inv(s) && Inv(s') && Outstanding(s, i) && g in s.host && g in s'.host
  {
    Nearer(s, s', i, g) || RankOf(s', i, g) == RankOf(s, i, g)
  }

  lemma CallerRank(s: State, step: Step, i: nat, g: Host)
    requires Inv(s) && Enabled(s, step) && Inv(Apply(s, step)) && Outstanding(s, i) && g in s.host
    requires CallerStep(step)
    ensures NotFarther(s, Apply(s, step), i, g)
    ensures step == SpinExit(i) ==> Nearer(s, Apply(s, step), i, g)
  {
    assert SlotOk(s, i) && SlotOk(s, step.i);
  }

  lemma SubmitRank(s: State, step: Step, i: nat, g: Host)
    requires Inv(s) && Enabled(s, step) && Inv(Apply(s, step)) && Outstanding(s, i) && g in s.host
    requires step.SubmitAsync? || step.SubmitSync?
    ensures NotFarther(s, Apply(s, step), i, g)
  {
    assert SlotOk(s, i) && SlotOk(s, step.i);
    if i in s.sq { IndexAppend(s.sq, step.i, i); }
  }

  lemma ResumeRank(s: State, i: nat, g: Host)
    requires Inv(s) && Enabled(s, Resume) && Inv(Apply(s, Resume)) && Outstanding(s, i) && g in s.host
    ensures NotFarther(s, Apply(s, Resume), i, g)
    ensures s.place[i].InReturn? ==> Nearer(s, Apply(s, Resume), i, g)
  {
    assert SlotOk(s, i) && SlotOk(s, s.rq[0]);
  }

  lemma TakeRank(s: State, h: Host, i: nat, g: Host)
    requires Inv(s) && Enabled(s, HTake(h)) && Inv(Apply(s, HTake(h))) && Outstanding(s, i) && g in s.host
    ensures NotFarther(s, Apply(s, HTake(h)), i, g)
    ensures s.place[i].InSubmit? ==> Nearer(s, Apply(s, HTake(h)), i, g)
  {
    assert SlotOk(s, i) && SlotOk(s, s.sq[0]);
  }

  ghost predicate HostStep(step: Step) {
    step.HRead? || step.HWrite? || step.HCheck? || step.HPublish? || step.HReturn?
  }

  // A step of a host thread brings the call it has nearer, and all that wait for g if it is g.
  lemma HostRank(s: State, step: Step, i: nat, g: Host)
    requires Inv(s) && Enabled(s, step) && Inv(Apply(s, step)) && Outstanding(s, i) && g in s.host
    requires HostStep(step)
    ensures NotFarther(s, Apply(s, step), i, g)
    ensures s.place[i] == With(step.h) ==> Nearer(s, Apply(s, step), i, g)
    ensures s.place[i].InSubmit? && step.h == g ==> Nearer(s, Apply(s, step), i, g)
  {
    assert SlotOk(s, i) && HostOk(s, step.h);
    assert SlotOk(s, s.host[step.h].i);
    if i in s.rq && step.HReturn? { IndexAppend(s.rq, s.host[step.h].i, i); }
  }

  /** No step of anybody takes a call farther from its completion. */
  lemma StepRank(s: State, step: Step, i: nat, g: Host)
    requires Inv(s) && Enabled(s, step) && Outstanding(s, i) && g in s.host
    ensures Inv(Apply(s, step)) && g in Apply(s, step).host && NotFarther(s, Apply(s, step), i, g)
  {
    StepInv(s, step);
    if CallerStep(step) {
      CallerRank(s, step, i, g);
    } else if step.SubmitAsync? || step.SubmitSync? {
      SubmitRank(s, step, i, g);
    } else if step.Resume? {
      ResumeRank(s, i, g);
    } else if step.HTake? {
      TakeRank(s, step.h, i, g);
    } else {
      HostRank(s, step, i, g);
    }
  }

  ghost predicate Advances(s: State, step: Step, i: nat, g: Host) {
    && Inv(s) && Enabled(s, step) && Outstanding(s, i) && g in s.host
    && Inv(Apply(s, step)) && g in Apply(s, step).host && Nearer(s, Apply(s, step), i, g)
  }

  // The next step of a host thread that is not free.
  lemma HostCanMove(s: State, h: Host) returns (step: Step)
    requires Inv(s) && |s.caller| <= s.cap && h in s.host && !s.host[h].Free?
    ensures HostStep(step) && step.h == h && Enabled(s, step)
  {
    assert HostOk(s, h);
    var j := s.host[h].i;
    assert SlotOk(s, j);
    step := match s.host[h]
      case Took(_) => HRead(h)
      case Running(_, _) => HWrite(h, 0)
      case Wrote(_) => HCheck(h)
      case Publishing(_) => HPublish(h)
      case _ => HReturn(h);
    if s.host[h].Returning? { Room(s, s.rq, j); }
  }

  /** No call is stuck: as long as it is outstanding, some step is enabled that brings this very call nearer to its
      completion, and by StepRank no other step takes it back. */
  lemma Progress(n: nat, hosts: set<Host>, cap: nat, run: seq<State>, k: nat, i: nat, g: Host) returns (step: Step)
    requires IsRun(n, hosts, cap, run) && k < |run| && n <= cap && g in hosts && Outstanding(run[k], i)
    ensures Advances(run[k], step, i, g)
  {
    var s := run[k];
    RunInv(n, hosts, cap, run, k);
    assert SlotOk(s, i);
    if s.place[i].Home? {
      step := SpinExit(i);
      StepInv(s, step);
      CallerRank(s, step, i, g);
    } else if s.place[i].InReturn? {
      assert InRange(s, s.rq[0]) && SlotOk(s, s.rq[0]) && s.rq[0] in s.rq;
      step := Resume;
      StepInv(s, step);
      ResumeRank(s, i, g);
    } else if s.place[i].InSubmit? && s.host[g].Free? {
      assert InRange(s, s.sq[0]) && s.sq[0] in s.sq;
      step := HTake(g);
      StepInv(s, step);
      TakeRank(s, g, i, g);
    } else {
      step := HostCanMove(s, if s.place[i].With? then s.place[i].h else g);
      StepInv(s, step);
      HostRank(s, step, i, g);
    }
  }

  // The word in the slot is of the kind that its caller is about to read.
  ghost predicate WordFits(s: State, i: nat)
    requires IsCaller(s, i)
  {
    && (s.caller[i].Resumed? ==> Enabled(s, ReadReturn(i)))
    && (s.caller[i].Outside? ==> Enabled(s, ExitRead(i)))
  }

  lemma CallerReads(s: State, i: nat)
    requires Inv(s) && IsCaller(s, i)
    ensures WordFits(s, i)
  {
    assert SlotOk(s, i);
  }

  /** What the scheduler takes off the return queue is always the slot of a thread that is off the CPU
      and waits for exactly that; a host thread always finds a request in the slot it has taken, and a
      resumed caller always finds a return value. None of these is checked by the code. */
  lemma NothingToCheck(n: nat, hosts: set<Host>, cap: nat, run: seq<State>, k: nat)
    requires IsRun(n, hosts, cap, run) && k < |run|
    ensures run[k].rq != [] ==> Enabled(run[k], Resume)
    ensures forall h :: h in run[k].host && run[k].host[h].Free? && run[k].sq != [] ==> Enabled(run[k], HTake(h))
    ensures forall h :: h in run[k].host && run[k].host[h].Took? ==> Enabled(run[k], HRead(h))
    ensures forall i: nat :: IsCaller(run[k], i) ==> WordFits(run[k], i)
  {
    var s := run[k];
    RunInv(n, hosts, cap, run, k);
    if s.rq != [] { assert InRange(s, s.rq[0]) && SlotOk(s, s.rq[0]) && s.rq[0] in s.rq; }
    if s.sq != [] { assert InRange(s, s.sq[0]) && s.sq[0] in s.sq; }
    forall h | h in s.host && s.host[h].Took? ensures Enabled(s, HRead(h)) {
      assert HostOk(s, h);
      assert SlotOk(s, s.host[h].i);
    }
    forall i: nat | IsCaller(s, i) ensures WordFits(s, i) { CallerReads(s, i); }
  }

  // ---- queue sizes ------------------------------------------------------------------------------------

  const CELL: nat := 16

  ghost predicate IsPow2(n: nat) { n == 1 || (n > 1 && n % 2 == 0 && IsPow2(n / 2)) }

  /** The least power of two that is at least x. Beyond 2^63 the shifted word becomes 0 and the loop
      does not end. */
  method NextPow2(x: nat) returns (n: nat)
    requires x <= 0x8000_0000_0000_0000
    ensures IsPow2(n) && x <= n && (n == 1 || n < 2 * x)
    ensures forall p :: IsPow2(p) && x <= p ==> n <= p
  {
    n := 1;
    while n < x
      invariant IsPow2(n) && (n == 1 || n < 2 * x)
      invariant forall p :: IsPow2(p) && x <= p ==> n <= p
      decreases x - n
    {
      forall p | IsPow2(p) && x <= p ensures 2 * n <= p { Pow2Gap(n, p); }
      assert IsPow2(2 * n / 2);
      n := 2 * n % 0x1_0000_0000_0000_0000;
    }
  }

  lemma {:induction false} Pow2Gap(a: nat, b: nat)
    requires IsPow2(a) && IsPow2(b) && a < b
    ensures 2 * a <= b
  {
    if a > 1 { Pow2Gap(a / 2, b / 2); }
  }

  lemma {:induction false} Pow2Quotient(n: nat)
    requires IsPow2(n) && CELL <= n
    ensures IsPow2(n / CELL) && n / CELL * CELL == n
  {
    assert IsPow2(n / 2) && IsPow2(n / 2 / 2) && IsPow2(n / 2 / 2 / 2) && IsPow2(n / 2 / 2 / 2 / 2);
    assert n / 2 / 2 / 2 / 2 == n / CELL;
  }

  /** The number of cells of either queue, for a given number of slots: a power of two at least that
      number. newmpmcq accepts it if and only if there are at least two slots. */
  method QueueCells(maxsyscalls: nat) returns (cells: nat, accepted: bool)
    requires maxsyscalls * CELL <= 0x8000_0000_0000_0000
    ensures maxsyscalls >= 1 ==> IsPow2(cells) && maxsyscalls <= cells < 2 * maxsyscalls
    ensures accepted <==> maxsyscalls >= 2
  {
    var bytes := NextPow2(maxsyscalls * CELL);
    cells := bytes / CELL;
    if maxsyscalls >= 1 { Pow2Quotient(bytes); }
    accepted := cells >= 2;
  }
}
