/** The transmit, receive and poll routines of the network device (src/lkl/virtio_net.c) as an interleaving
    machine of any number of transmitting and receiving threads and one polling thread.

    Every access to poll_tx, poll_rx and the pipe is a step of its own. Whether the device is readable or
    writable is up to the environment. `waiting` and `signalled` are history: a side waits
    from the moment a routine of that side, having got EAGAIN, sets its poll variable until poll returns
    the event of that side, and it has signalled once such a routine has written to the pipe meanwhile. */
module VirtioNet {
  import opened Basics

  type Tid = nat

  const PIPE_BUF: nat := 4096

  datatype Side = Tx | Rx

  datatype Pair = Pair(tx: bool, rx: bool)

  function Get(p: Pair, side: Side): bool { if side.Tx? then p.tx else p.rx }

  function Set(p: Pair, side: Side, v: bool): Pair { if side.Tx? then p.(tx := v) else p.(rx := v) }

  datatype Pc = Idle | GotAgain(side: Side) | FlagSet(side: Side)

  datatype Poll =
    | Outside
    | Start                                 // about to read poll_rx
    | HaveRx(rx: bool)                      // about to read poll_tx
    | Polling(mask: Pair)                   // in the poll system call
    | Polled(events: Pair, byte: bool)      // about to drain the pipe
    | Drained(events: Pair)                 // about to reset poll_rx
    | ResetRx(events: Pair)                 // about to reset poll_tx
    | ResetTx(events: Pair)                 // about to return

  datatype State = State(flag: Pair, pipe: nat, cap: nat, ready: Pair, pc: map<Tid, Pc>, poll: Poll,
                         waiting: Pair, signalled: Pair)

  datatype Step =
    | Again(t: Tid, side: Side)
    | SetFlag(t: Tid)
    | WritePipe(t: Tid)
    | Device(ready: Pair)
    | PollStart
    | ReadRx
    | ReadTx
    | PollReturns
    | Drain
    | ClearRx
    | ClearTx
    | Return

  ghost function Revents(s: State): Pair
    requires s.poll.Polling?
  {
    Pair(s.poll.mask.tx && s.ready.tx, s.poll.mask.rx && s.ready.rx)
  }

  ghost predicate Enabled(s: State, step: Step) {
    match step
    case Again(t, side) => t in s.pc && s.pc[t].Idle? && !Get(s.ready, side)
    case SetFlag(t) => t in s.pc && s.pc[t].GotAgain?
    case WritePipe(t) => t in s.pc && s.pc[t].FlagSet?
    case Device(_) => true
    case PollStart => s.poll.Outside?
    case ReadRx => s.poll.Start?
    case ReadTx => s.poll.HaveRx?
    case PollReturns => s.poll.Polling? && (Revents(s).tx || Revents(s).rx || s.pipe > 0)
    case Drain => s.poll.Polled?
    case ClearRx => s.poll.Drained?
    case ClearTx => s.poll.ResetRx?
    case Return => s.poll.ResetTx?
  }

  ghost function Apply(s: State, step: Step): State
    requires Enabled(s, step)
  {
    match step
    case Again(t, side) => s.(pc := s.pc[t := GotAgain(side)])
    case SetFlag(t) =>
      var side := s.pc[t].side;
      s.(flag := Set(s.flag, side, true), pc := s.pc[t := FlagSet(side)], waiting := Set(s.waiting, side, true),
         signalled := Set(s.signalled, side, Get(s.waiting, side) && Get(s.signalled, side)))
    case WritePipe(t) => // a full pipe takes no further byte
      s.(pipe := Min(s.pipe + 1, s.cap), pc := s.pc[t := Idle],
         signalled := Set(s.signalled, s.pc[t].side, true))
    case Device(ready) => s.(ready := ready)
    case PollStart => s.(poll := Start)
    case ReadRx => s.(poll := HaveRx(s.flag.rx))
    case ReadTx => s.(poll := Polling(Pair(s.flag.tx, s.poll.rx)))
    case PollReturns => s.(poll := Polled(Revents(s), s.pipe > 0))
    case Drain =>
      s.(poll := Drained(s.poll.events), pipe := if s.poll.byte then s.pipe - Min(s.pipe, PIPE_BUF) else s.pipe)
    case ClearRx => s.(poll := ResetRx(s.poll.events), flag := Set(s.flag, Rx, s.flag.rx && !s.poll.events.rx))
    case ClearTx => s.(poll := ResetTx(s.poll.events), flag := Set(s.flag, Tx, s.flag.tx && !s.poll.events.tx))
    case Return =>
      s.(poll := Outside, waiting := Pair(s.waiting.tx && !s.poll.events.tx, s.waiting.rx && !s.poll.events.rx))
  }

  ghost function Init(threads: set<Tid>, cap: nat): State {
    State(Pair(false, false), 0, cap, Pair(false, false), map t | t in threads :: Idle, Outside,
          Pair(false, false), Pair(false, false))
  }

  ghost predicate Follows(s: State, s': State) { exists step :: Enabled(s, step) && s' == Apply(s, step) }

  ghost predicate Linked(run: seq<State>, k: int)
    requires 0 <= k < |run| - 1
  {
    Follows(run[k], run[k + 1])
  }

  ghost predicate IsRun(threads: set<Tid>, cap: nat, run: seq<State>) {
    && cap > 0 && run != [] && run[0] == Init(threads, cap)
    && forall k :: 0 <= k < |run| - 1 ==> Linked(run, k)
  }

  // ---- invariant ------------------------------------------------------------------------------------------

  // Poll will return the event of this side.
  ghost predicate Committed(poll: Poll, side: Side) {
    (poll.Polled? || poll.Drained? || poll.ResetRx? || poll.ResetTx?) && Get(poll.events, side)
  }

  // Poll has read the poll variable of this side as 0 and has not come back from the system call.
  ghost predicate Unaware(poll: Poll, side: Side) {
    (poll.HaveRx? && side.Rx? && !poll.rx) || (poll.Polling? && !Get(poll.mask, side))
  }

  ghost predicate SideOk(s: State, side: Side) {
    Get(s.waiting, side) ==>
      && (Get(s.flag, side) || Committed(s.poll, side))
      && (Unaware(s.poll, side) && Get(s.signalled, side) ==> s.pipe > 0)
  }

  ghost predicate Inv(s: State) { s.cap > 0 && SideOk(s, Tx) && SideOk(s, Rx) }

  lemma StepSide(s: State, step: Step, side: Side)
    requires Inv(s) && Enabled(s, step)
    ensures SideOk(Apply(s, step), side)
  {}

  lemma StepInv(s: State, step: Step)
    requires Inv(s) && Enabled(s, step)
    ensures Inv(Apply(s, step))
  {
    StepSide(s, step, Tx);
    StepSide(s, step, Rx);
  }

  lemma {:induction false} RunInv(threads: set<Tid>, cap: nat, run: seq<State>, k: nat)
    requires IsRun(threads, cap, run) && k < |run|
    ensures Inv(run[k])
  {
    if k > 0 {
      RunInv(threads, cap, run, k - 1);
      assert Linked(run, k - 1);
      var step :| Enabled(run[k - 1], step) && run[k] == Apply(run[k - 1], step);
      StepInv(run[k - 1], step);
    }
  }

  // ---- results --------------------------------------------------------------------------------------------

  /** While a side waits, its poll variable is 1 or poll is about to return its event. */
  lemma FlagOrEvent(threads: set<Tid>, cap: nat, run: seq<State>, k: nat, side: Side)
    requires IsRun(threads, cap, run) && k < |run| && Get(run[k].waiting, side)
    ensures Get(run[k].flag, side) || Committed(run[k].poll, side)
  {
    RunInv(threads, cap, run, k);
  }

  /** A poll that does not watch for the event of a side that waits and has signalled cannot block: there is a
      byte in the pipe. A poll that does watch for it returns as soon as the device is ready. */
  lemma NeverStalls(threads: set<Tid>, cap: nat, run: seq<State>, k: nat, side: Side)
    requires IsRun(threads, cap, run) && k < |run| && Get(run[k].waiting, side) && Get(run[k].signalled, side)
    ensures run[k].poll.Polling? && !Get(run[k].poll.mask, side) ==> run[k].pipe > 0 && Enabled(run[k], PollReturns)
    ensures run[k].poll.Polling? && Get(run[k].poll.mask, side) && Get(run[k].ready, side) ==>
              Enabled(run[k], PollReturns) && Committed(Apply(run[k], PollReturns).poll, side)
  {
    RunInv(threads, cap, run, k);
  }

  ghost predicate BeforeReturn(poll: Poll) { poll.Start? || poll.HaveRx? || poll.Polling? }

  // In this round poll has not read the variable of the side yet, or has read it as 1.
  ghost predicate Aware(poll: Poll, side: Side) { BeforeReturn(poll) && !Unaware(poll, side) }

  lemma StaysAware(s: State, step: Step, side: Side)
    requires Inv(s) && Enabled(s, step) && Get(s.waiting, side) && Aware(s.poll, side)
    requires BeforeReturn(Apply(s, step).poll)
    ensures Aware(Apply(s, step).poll, side) && Get(Apply(s, step).waiting, side)
  {}

  lemma NextAware(threads: set<Tid>, cap: nat, run: seq<State>, k: nat, side: Side)
    requires IsRun(threads, cap, run) && k + 1 < |run|
    requires Get(run[k].waiting, side) && Aware(run[k].poll, side) && BeforeReturn(run[k + 1].poll)
    ensures Aware(run[k + 1].poll, side) && Get(run[k + 1].waiting, side)
  {
    RunInv(threads, cap, run, k);
    assert Linked(run, k);
    var step :| Enabled(run[k], step) && run[k + 1] == Apply(run[k], step);
    StaysAware(run[k], step, side);
  }

  /** A round of poll that starts while a side waits watches for its event, however the other threads run. */
  lemma {:induction false} NextRoundWatches(threads: set<Tid>, cap: nat, run: seq<State>, j: nat, k: nat, side: Side)
    requires IsRun(threads, cap, run) && j <= k < |run| && run[j].poll.Start? && Get(run[j].waiting, side)
    requires forall t :: j <= t <= k ==> BeforeReturn(run[t].poll)
    ensures Aware(run[k].poll, side) && Get(run[k].waiting, side)
    ensures run[k].poll.Polling? ==> Get(run[k].poll.mask, side)
    decreases k
  {
    if j < k {
      NextRoundWatches(threads, cap, run, j, k - 1, side);
      NextAware(threads, cap, run, k - 1, side);
    }
  }

  lemma ReturnCommits(s: State, step: Step, side: Side)
    requires Enabled(s, step) && BeforeReturn(s.poll) && Apply(s, step).poll.Polled?
    requires Aware(s.poll, side) && Get(s.ready, side)
    ensures Committed(Apply(s, step).poll, side)
  {}

  /** A round of poll that starts while a side waits returns the event of that side, if the device is ready when
      the system call returns. So a side that waits misses at most the round that is under way. */
  lemma RoundDelivers(threads: set<Tid>, cap: nat, run: seq<State>, j: nat, k: nat, side: Side)
    requires IsRun(threads, cap, run) && j < k < |run| && run[j].poll.Start? && Get(run[j].waiting, side)
    requires forall t :: j <= t < k ==> BeforeReturn(run[t].poll)
    requires run[k].poll.Polled? && Get(run[k - 1].ready, side)
    ensures Committed(run[k].poll, side)
  {
    NextRoundWatches(threads, cap, run, j, k - 1, side);
    assert Linked(run, k - 1);
    var step :| Enabled(run[k - 1], step) && run[k] == Apply(run[k - 1], step);
    ReturnCommits(run[k - 1], step, side);
  }

  /** An event that poll is committed to is among those it returns, whatever the others do in between. */
  lemma {:induction false} CommittedReturns(threads: set<Tid>, cap: nat, run: seq<State>, j: nat, k: nat, side: Side)
    requires IsRun(threads, cap, run) && j <= k < |run| && Committed(run[j].poll, side)
    requires forall t :: j <= t <= k ==> !run[t].poll.Outside?
    ensures Committed(run[k].poll, side)
    decreases k
  {
    if j < k {
      CommittedReturns(threads, cap, run, j, k - 1, side);
      assert Linked(run, k - 1);
    }
  }

  // ---- no event is made up ----------------------------------------------------------------------------------

  // Poll has read the variable of this side as 1 and has not come back from the system call.
  ghost predicate Watches(poll: Poll, side: Side) {
    (poll.HaveRx? && side.Rx? && poll.rx) || (poll.Polling? && Get(poll.mask, side))
  }

  // About to read the variable of this side.
  ghost predicate Reads(poll: Poll, side: Side) { if side.Rx? then poll.Start? else poll.HaveRx? }

  lemma WatchStep(s: State, step: Step, side: Side)
    requires Enabled(s, step)
    ensures Watches(Apply(s, step).poll, side) && !Watches(s.poll, side) ==> Reads(s.poll, side) && Get(s.flag, side)
    ensures Committed(Apply(s, step).poll, side) && !Committed(s.poll, side) ==>
              s.poll.Polling? && Watches(s.poll, side) && Get(s.ready, side)
    ensures Get(s.flag, side) && !Get(Apply(s, step).flag, side) ==>
              Committed(s.poll, side) && Committed(Apply(s, step).poll, side)
  {}

  lemma {:induction false} WhenRead(threads: set<Tid>, cap: nat, run: seq<State>, k: nat, side: Side) returns (r: nat)
    requires IsRun(threads, cap, run) && k < |run| && Watches(run[k].poll, side)
    ensures r < k && Reads(run[r].poll, side) && Get(run[r].flag, side)
    ensures forall i :: r < i <= k ==> Watches(run[i].poll, side)
  {
    assert Linked(run, k - 1);
    var step :| Enabled(run[k - 1], step) && run[k] == Apply(run[k - 1], step);
    WatchStep(run[k - 1], step, side);
    if Watches(run[k - 1].poll, side) {
      r := WhenRead(threads, cap, run, k - 1, side);
    } else {
      r := k - 1;
    }
  }

  lemma {:induction false} WhenReady(threads: set<Tid>, cap: nat, run: seq<State>, k: nat, side: Side)
    returns (p: nat)
    requires IsRun(threads, cap, run) && k < |run| && Committed(run[k].poll, side)
    ensures p < k && run[p].poll.Polling? && Watches(run[p].poll, side) && Get(run[p].ready, side)
    ensures forall i :: p < i <= k ==> Committed(run[i].poll, side)
  {
    assert Linked(run, k - 1);
    var step :| Enabled(run[k - 1], step) && run[k] == Apply(run[k - 1], step);
    WatchStep(run[k - 1], step, side);
    if Committed(run[k - 1].poll, side) {
      p := WhenReady(threads, cap, run, k - 1, side);
    } else {
      p := k - 1;
    }
  }

  /** An event that poll returns was asked for and was there: in the same round it read the poll variable of that
      side as 1, and the device was ready on that side when the system call returned. */
  lemma EventReal(threads: set<Tid>, cap: nat, run: seq<State>, k: nat, side: Side) returns (r: nat, p: nat)
    requires IsRun(threads, cap, run) && k < |run| && Committed(run[k].poll, side)
    ensures r < p < k && Reads(run[r].poll, side) && Get(run[r].flag, side)
    ensures run[p].poll.Polling? && Get(run[p].ready, side)
    ensures forall i :: r < i <= p ==> Watches(run[i].poll, side)
    ensures forall i :: p < i <= k ==> Committed(run[i].poll, side)
  {
    p := WhenReady(threads, cap, run, k, side);
    r := WhenRead(threads, cap, run, p, side);
  }

  /** A poll variable is reset only by poll, and only when it is about to return the event of that side. */
  lemma ResetForEvent(threads: set<Tid>, cap: nat, run: seq<State>, k: nat, side: Side)
    requires IsRun(threads, cap, run) && k + 1 < |run| && Get(run[k].flag, side) && !Get(run[k + 1].flag, side)
    ensures Committed(run[k].poll, side) && Committed(run[k + 1].poll, side)
  {
    assert Linked(run, k);
    var step :| Enabled(run[k], step) && run[k + 1] == Apply(run[k], step);
    WatchStep(run[k], step, side);
  }

  /** Poll does not spin: once it has drained a pipe of at most 4096 bytes, and until a routine writes to the pipe
      again, it returns only if an event that it watches for is there. */
  lemma {:induction false} Blocks(threads: set<Tid>, cap: nat, run: seq<State>, j: nat, k: nat)
    requires IsRun(threads, cap, run) && j < k < |run| && run[j].poll.Polled? && run[j].poll.byte
    requires run[j].pipe <= 4096 && run[j + 1] == Apply(run[j], Drain)
    requires forall i :: j < i < k ==> run[i + 1].pipe <= run[i].pipe
    ensures run[k].pipe == 0
    ensures Enabled(run[k], PollReturns) <==>
            run[k].poll.Polling? && exists side :: Get(run[k].poll.mask, side) && Get(run[k].ready, side)
    decreases k
  {
    if j + 1 < k {
      Blocks(threads, cap, run, j, k - 1);
      assert run[k - 1 + 1].pipe <= run[k - 1].pipe;
    }
    var s := run[k];
    if s.poll.Polling? && Revents(s).tx { assert Get(s.poll.mask, Tx) && Get(s.ready, Tx); }
    if s.poll.Polling? && Revents(s).rx { assert Get(s.poll.mask, Rx) && Get(s.ready, Rx); }
  }

  lemma Extend(threads: set<Tid>, cap: nat, run: seq<State>, step: Step) returns (run': seq<State>)
    requires IsRun(threads, cap, run) && Enabled(run[|run| - 1], step)
    ensures IsRun(threads, cap, run') && |run'| == |run| + 1 && run'[..|run|] == run
    ensures run'[|run|] == Apply(run[|run| - 1], step)
  {
    run' := run + [Apply(run[|run| - 1], step)];
    forall k | 0 <= k < |run'| - 1 ensures Linked(run', k) {
      if k < |run| - 1 { assert Linked(run, k); }
    }
  }

  ghost function Middle(flag: bool, ready: bool, poll: Poll, waiting: bool): State {
    State(Pair(flag, false), 0, 1, Pair(ready, false), map[0 := FlagSet(Tx)], poll,
          Pair(waiting, false), Pair(false, false))
  }

  // A transmitter has set poll_tx and is about to write to the pipe; poll watches for it.
  lemma Watched() returns (run: seq<State>)
    ensures IsRun({0}, 1, run) && run[|run| - 1] == Middle(true, false, Polling(Pair(true, false)), true)
  {
    run := [Init({0}, 1)];
    run := Extend({0}, 1, run, Again(0, Tx));
    run := Extend({0}, 1, run, SetFlag(0));
    assert run[|run| - 1].pc == map[0 := FlagSet(Tx)];
    run := Extend({0}, 1, run, PollStart);
    run := Extend({0}, 1, run, ReadRx);
    run := Extend({0}, 1, run, ReadTx);
  }

  /** An event may be returned between a routine's setting of its poll variable and its writing to the
      pipe. That event serves the routine: afterwards it has signalled, but its variable is 0 and poll is
      not about to return. This is why waiting starts with the variable and not with the pipe. */
  lemma EventBeforeSignal() returns (run: seq<State>)
    ensures IsRun({0}, 1, run) && |run| > 1
    ensures var s, last := run[|run| - 2], run[|run| - 1];
            && Enabled(s, WritePipe(0)) && s.pc[0] == FlagSet(Tx) && last == Apply(s, WritePipe(0))
            && !last.flag.tx && !Committed(last.poll, Tx) && !last.waiting.tx
  {
    run := Watched();
    run := Extend({0}, 1, run, Device(Pair(true, false)));
    run := Extend({0}, 1, run, PollReturns);
    run := Extend({0}, 1, run, Drain);
    run := Extend({0}, 1, run, ClearRx);
    run := Extend({0}, 1, run, ClearTx);
    run := Extend({0}, 1, run, Return);
    assert run[|run| - 1] == Middle(false, true, Outside, false);
    run := Extend({0}, 1, run, WritePipe(0));
  }
}
